/**
  The commits of a run as a rebuild sees them. The events a run's commits wrote form a live
  history exactly when the commits carry unique, non-empty commit IDs, as commits tagged with
  their command's ID do; and the stored events of an uncompacted store are that history's log.
 */
module LiveRuns {
  import opened Basics
  import opened Sequences
  import Order
  import opened CommitLog
  import opened Commit
  import opened StreamStore
  import opened Load
  import opened Transaction
  import opened Serial
  import Rebuild

  // ----- The commits of a run

  /** The commit a step leaves in the log, if it wrote any event. */
  function Logged(m: Machine, cfg: Config, step: RunStep): seq<Rebuild.Commit>
  {
    if step.Commits? && Decides(step.ex).Decide? && Normalized(CommitOf(m, cfg, step.ex)).events != [] then
      [Rebuild.Commit(step.ex.metadata.commitID, Normalized(CommitOf(m, cfg, step.ex)).events)]
    else []
  }

  function LoggedIn(m: Machine, cfg: Config, steps: seq<RunStep>): seq<Rebuild.Commit>
  {
    if steps == [] then [] else LoggedIn(m, cfg, steps[..|steps| - 1]) + Logged(m, cfg, steps[|steps| - 1])
  }

  /** Every commit has an ID, and no two the same. */
  predicate Stamped(h: seq<Rebuild.Commit>)
  {
    && (forall i | 0 <= i < |h| :: h[i].id != "")
    && (forall i, j | 0 <= i < j < |h| :: h[i].id != h[j].id)
  }

  /** Commit `i` wrote events tagged with its ID, each continuing its stream from the stream's head. */
  ghost predicate Continued(h: seq<Rebuild.Commit>, i: nat)
    requires i < |h|
  {
    && h[i].events != [] && Order.DistinctKeys(h[i].events, EventKey)
    && forall e | e in h[i].events ::
         && ID(e) == h[i].id
         && Rebuild.Head(h, i, e.entity) < e.sequence <= Rebuild.Head(h, i + 1, e.entity)
  }

  ghost predicate AllContinued(h: seq<Rebuild.Commit>)
  {
    forall i | 0 <= i < |h| :: Continued(h, i)
  }

  /** The commits account for every event of the history, stream by stream and in order. */
  ghost predicate Accounts(h: seq<Rebuild.Commit>, w: World)
  {
    forall id :: WrittenTo(h, id) == History(w, id) && Rebuild.Head(h, |h|, id) == |History(w, id)|
  }

  /** What the commits wrote to one stream. */
  function WrittenTo(h: seq<Rebuild.Commit>, id: string): seq<Event>
  {
    FlatMap((c: Rebuild.Commit) => Stream(c.events, id), h)
  }

  // ----- Streams

  lemma {:induction false} StreamIsFilter(events: seq<Event>, id: string)
    ensures Stream(events, id) == Filter((e: Event) => e.entity == id, events)
  {
    if events != [] {
      var front, e := events[..|events| - 1], events[|events| - 1];
      StreamIsFilter(front, id);
      assert events == front + [e];
      StreamSnoc(front, e, id);
    }
  }

  lemma {:induction false} HeadPrefix(h: seq<Rebuild.Commit>, c: Rebuild.Commit, n: nat, id: string)
    requires n <= |h|
    ensures Rebuild.Head(h + [c], n, id) == Rebuild.Head(h, n, id)
  {
    if n > 0 { HeadPrefix(h, c, n - 1, id); }
  }

  lemma {:induction false} HeadSnoc(h: seq<Rebuild.Commit>, c: Rebuild.Commit, id: string)
    ensures Rebuild.Head(h + [c], |h| + 1, id) == Rebuild.Head(h, |h|, id) + |Stream(c.events, id)|
  {
    HeadPrefix(h, c, |h|, id);
    StreamIsFilter(c.events, id);
  }

  /** Event number `i` is, within its stream, the one after the stream's earlier events. */
  lemma {:induction false} PlaceInStream(events: seq<Event>, i: nat)
    requires i < |events|
    ensures var id := events[i].entity;
            var k := |Stream(events[..i], id)|;
            k < |Stream(events, id)| && Stream(events, id)[k] == events[i]
  {
    var id := events[i].entity;
    StreamAfter(events, i, id);
    StreamPrefix(events, i + 1, id);
  }

  lemma {:induction false} PlacesAscend(events: seq<Event>, i: nat, j: nat)
    requires i < j < |events| && events[i].entity == events[j].entity
    ensures |Stream(events[..i], events[i].entity)| < |Stream(events[..j], events[i].entity)|
  {
    var id := events[i].entity;
    StreamAfter(events, i, id);
    StreamPrefix(events[..j], i + 1, id);
    assert events[..j][..i + 1] == events[..i + 1];
  }

  lemma {:induction false} ContiguousIsDistinct(events: seq<Event>)
    requires forall id :: ContiguousStream(Stream(events, id), id)
    ensures Order.DistinctKeys(events, EventKey)
  {
    forall i, j | 0 <= i < j < |events| ensures EventKey(events[i]) != EventKey(events[j]) {
      if events[i].entity == events[j].entity {
        PlaceInStream(events, i);
        PlaceInStream(events, j);
        PlacesAscend(events, i, j);
        assert ContiguousStream(Stream(events, events[i].entity), events[i].entity);
      }
    }
  }

  // ----- One commit

  lemma {:induction false} SerializedMetadata(
    streams: map<string, TxStream>, metadata: Metadata, order: seq<string>, e: Event)
    requires e in FlatMap(EventsOf(streams, metadata), order)
    ensures e.metadata == metadata
  {
    FlatMapMember(EventsOf(streams, metadata), order, e);
  }

  lemma {:induction false} CommittedMetadata(m: Machine, cfg: Config, ex: Execution, e: Event)
    requires Decides(ex).Decide? && e in Normalized(CommitOf(m, cfg, ex)).events
    ensures e.metadata == ex.metadata
  {
    var r := CommitOf(m, cfg, ex);
    CommitParts(m, cfg, ex);
    Order.SortKeeps(r.events, EventStreamKey);
    assert e in multiset(Normalized(r).events) && e in multiset(r.events) && e in r.events;
    SerializedMetadata(ReadSet(m, ex.loads, Decides(ex).writes), ex.metadata, Entities(ex.loads), e);
  }

  lemma {:induction false} EventContinues(m: Machine, w: World, n: SerializedResult, e: Event)
    requires StreamInv(m, w, e.entity) && Admits(w.rows, n) && Contiguous(n) && e in n.events
    ensures |History(w, e.entity)| < e.sequence <= |History(w, e.entity)| + |Stream(n.events, e.entity)|
  {
    var stream := Stream(n.events, e.entity);
    StreamMember(n.events, e.entity, e);
    assert Continues(w.rows, e.entity, stream) && ContiguousStream(stream, e.entity);
    CommittedHead(w, n, e.entity);
  }

  /** The commits before, and one more admitted commit. */
  lemma {:induction false} OneMoreContinues(
    m: Machine, w: World, h: seq<Rebuild.Commit>, id: string, n: SerializedResult)
    requires Inv(m, w) && Admits(w.rows, n) && Contiguous(n) && n.events != []
    requires forall e | e in n.events :: ID(e) == id
    requires AllContinued(h) && Accounts(h, w)
    ensures AllContinued(h + [Rebuild.Commit(id, n.events)])
  {
    var c := Rebuild.Commit(id, n.events);
    var all := h + [c];
    forall i | 0 <= i < |all| ensures Continued(all, i) {
      if i < |h| {
        StillContinued(h, c, i);
      } else {
        ContiguousIsDistinct(n.events);
        forall e | e in n.events
          ensures Rebuild.Head(all, i, e.entity) < e.sequence <= Rebuild.Head(all, i + 1, e.entity)
        {
          assert StreamInv(m, w, e.entity);
          EventContinues(m, w, n, e);
          HeadPrefix(h, c, |h|, e.entity);
          HeadSnoc(h, c, e.entity);
          assert Rebuild.Head(h, |h|, e.entity) == |History(w, e.entity)|;
        }
      }
    }
  }

  lemma {:induction false} StillContinued(h: seq<Rebuild.Commit>, c: Rebuild.Commit, i: nat)
    requires i < |h| && Continued(h, i)
    ensures Continued(h + [c], i)
  {
    forall e | e in h[i].events
      ensures Rebuild.Head(h + [c], i, e.entity) == Rebuild.Head(h, i, e.entity)
      ensures Rebuild.Head(h + [c], i + 1, e.entity) == Rebuild.Head(h, i + 1, e.entity)
    {
      HeadPrefix(h, c, i, e.entity);
      HeadPrefix(h, c, i + 1, e.entity);
    }
  }

  lemma {:induction false} OneMoreAccounts(w: World, h: seq<Rebuild.Commit>, id: string, n: SerializedResult)
    requires Accounts(h, w)
    ensures Accounts(h + if n.events != [] then [Rebuild.Commit(id, n.events)] else [], Next(w, CommitStep(n)))
  {
    var all, next := h + if n.events != [] then [Rebuild.Commit(id, n.events)] else [], Next(w, CommitStep(n));
    forall s ensures WrittenTo(all, s) == History(next, s) && Rebuild.Head(all, |all|, s) == |History(next, s)| {
      AppendedLog(w.history, n.events, s);
      assert WrittenTo(h, s) == History(w, s) && Rebuild.Head(h, |h|, s) == |History(w, s)|;
      if n.events != [] {
        var c := Rebuild.Commit(id, n.events);
        FlatMapSnoc((c: Rebuild.Commit) => Stream(c.events, s), h, c);
        HeadSnoc(h, c, s);
      } else {
        assert all == h;
      }
    }
  }

  // ----- Every run

  lemma {:induction false} OtherStepsAccount(m: Machine, cfg: Config, w: World, step: RunStep, h: seq<Rebuild.Commit>)
    requires !step.Commits? && Accounts(h, w)
    ensures Accounts(h, Next(w, StepOf(m, cfg, step)))
  {
    if step.Records? { AppendNothing(w.history); }
    var next := Next(w, StepOf(m, cfg, step));
    forall id ensures WrittenTo(h, id) == History(next, id) && Rebuild.Head(h, |h|, id) == |History(next, id)| {
      assert WrittenTo(h, id) == History(w, id);
    }
  }

  lemma {:induction false} StepIsLive(
    m: Machine, cfg: Config, worlds: seq<World>, step: RunStep, next: World, h: seq<Rebuild.Commit>)
    requires worlds != [] && RunInv(m, worlds) && ValidStep(m, cfg, worlds, step, next)
    requires AllContinued(h) && Accounts(h, worlds[|worlds| - 1])
    ensures AllContinued(h + Logged(m, cfg, step)) && Accounts(h + Logged(m, cfg, step), next)
  {
    var w := worlds[|worlds| - 1];
    if step.Commits? {
      var n := Normalized(CommitOf(m, cfg, step.ex));
      StepIsHonest(m, cfg, worlds, step);
      OneMoreAccounts(w, h, step.ex.metadata.commitID, n);
      if n.events != [] {
        forall e | e in n.events ensures ID(e) == step.ex.metadata.commitID { CommittedMetadata(m, cfg, step.ex, e); }
        OneMoreContinues(m, w, h, step.ex.metadata.commitID, n);
      } else {
        assert h + [] == h;
      }
    } else {
      OtherStepsAccount(m, cfg, w, step, h);
      assert h + [] == h;
    }
  }

  lemma {:induction false} LoggedSnoc(m: Machine, cfg: Config, steps: seq<RunStep>, k: nat)
    requires k < |steps|
    ensures LoggedIn(m, cfg, steps[..k + 1]) == LoggedIn(m, cfg, steps[..k]) + Logged(m, cfg, steps[k])
  {
    assert steps[..k + 1][..k] == steps[..k];
  }

  lemma {:induction false} StartsAccounted()
    ensures AllContinued([]) && Accounts([], EMPTY)
  {}

  lemma {:induction false} RunIsLive(m: Machine, cfg: Config, worlds: seq<World>, steps: seq<RunStep>, n: nat)
    requires ValidRun(m, cfg, worlds, steps) && n <= |steps|
    ensures AllContinued(LoggedIn(m, cfg, steps[..n])) && Accounts(LoggedIn(m, cfg, steps[..n]), worlds[n])
  {
    if n == 0 {
      StartsAccounted();
    } else {
      var k := n - 1;
      RunIsLive(m, cfg, worlds, steps, k);
      RunKeepsInvariant(m, cfg, worlds, steps, k);
      LoggedSnoc(m, cfg, steps, k);
      StepOfRun(m, cfg, worlds, steps, k);
      StepIsLive(m, cfg, worlds[..k + 1], steps[k], worlds[k + 1], LoggedIn(m, cfg, steps[..k]));
    }
  }

  lemma {:induction false} StampedIsLive(h: seq<Rebuild.Commit>)
    requires AllContinued(h)
    ensures Rebuild.LiveHistory(h) <==> Stamped(h)
  {
    forall i | 0 <= i < |h| ensures Rebuild.LiveCommit(h, i) <==> h[i].id != "" { assert Continued(h, i); }
  }

  /**
    The commits of any run, in commit order, account for every event of the history, and are a
    live history exactly when they carry unique, non-empty IDs.
   */
  lemma {:induction false} RunIsLiveHistory(m: Machine, cfg: Config, worlds: seq<World>, steps: seq<RunStep>)
    requires ValidRun(m, cfg, worlds, steps)
    ensures var h := LoggedIn(m, cfg, steps);
            && (Rebuild.LiveHistory(h) <==> Stamped(h))
            && (forall id :: WrittenTo(h, id) == History(worlds[|steps|], id))
  {
    RunIsLive(m, cfg, worlds, steps, |steps|);
    assert steps[..|steps|] == steps;
    var h := LoggedIn(m, cfg, steps);
    StampedIsLive(h);
    forall id ensures WrittenTo(h, id) == History(worlds[|steps|], id) { assert Accounts(h, worlds[|steps|]); }
  }

  // ----- When the IDs are unique

  predicate IsPlain(step: RunStep)
  {
    step.Commits? && Decides(step.ex).Decide? && Decides(step.ex).decision.None?
  }

  /** The two commits both wrote events, and at least the first records no outcome. */
  predicate PlainPair(m: Machine, cfg: Config, a: RunStep, b: RunStep)
  {
    IsPlain(a) && Logged(m, cfg, a) != [] && Logged(m, cfg, b) != []
  }

  /** Every plain commit that wrote events has a commit ID no other commit that wrote events has. */
  predicate PlainIDsDiffer(m: Machine, cfg: Config, steps: seq<RunStep>)
  {
    forall i, j | 0 <= i < |steps| && 0 <= j < |steps| && i != j && PlainPair(m, cfg, steps[i], steps[j]) ::
      steps[i].ex.metadata.commitID != steps[j].ex.metadata.commitID
  }

  /** Each logged commit is that of some step. */
  lemma {:induction false} LoggedOrigin(m: Machine, cfg: Config, steps: seq<RunStep>, i: nat) returns (k: nat)
    requires i < |LoggedIn(m, cfg, steps)|
    ensures k < |steps| && Logged(m, cfg, steps[k]) == [LoggedIn(m, cfg, steps)[i]]
  {
    k := |steps| - 1;
    var front, more := LoggedIn(m, cfg, steps[..k]), Logged(m, cfg, steps[k]);
    assert LoggedIn(m, cfg, steps) == front + more;
    if i < |front| { k := LoggedOrigin(m, cfg, steps[..k], i); } else { assert (front + more)[i] == more[0]; }
  }

  /** Each step's commit has its place among the logged ones: after those of the steps before it. */
  lemma {:induction false} LoggedPlace(m: Machine, cfg: Config, steps: seq<RunStep>, k: nat)
    requires k < |steps| && Logged(m, cfg, steps[k]) != []
    ensures var i := |LoggedIn(m, cfg, steps[..k])|;
            i < |LoggedIn(m, cfg, steps)| && LoggedIn(m, cfg, steps)[i].id == steps[k].ex.metadata.commitID
  {
    LoggedSnoc(m, cfg, steps, k);
    LoggedPrefix(m, cfg, steps, k + 1);
    var before, all := LoggedIn(m, cfg, steps[..k + 1]), LoggedIn(m, cfg, steps);
    assert all[|before| - 1] == before[|before| - 1];
  }

  lemma {:induction false} LoggedPrefix(m: Machine, cfg: Config, steps: seq<RunStep>, k: nat)
    requires k <= |steps|
    ensures LoggedIn(m, cfg, steps[..k]) <= LoggedIn(m, cfg, steps)
    decreases |steps| - k
  {
    if k == |steps| {
      assert steps[..k] == steps;
    } else {
      LoggedSnoc(m, cfg, steps, k);
      LoggedPrefix(m, cfg, steps, k + 1);
    }
  }

  /** The outcome of a decided commit is its command's, whose ID the commit carries. */
  lemma {:induction false} DecidedOutcome(m: Machine, cfg: Config, ex: Execution)
    requires Decides(ex).Decide? && Decides(ex).decision.Some? && Marked(ex) && WellFormed(CommitOf(m, cfg, ex))
    ensures var o := Recorded(m, cfg, Commits(ex)); o.Some? && o.value.commandID == ex.metadata.commitID
  {
    CommitParts(m, cfg, ex);
  }

  lemma {:induction false} DecidedDiffer(
    m: Machine, cfg: Config, worlds: seq<World>, steps: seq<RunStep>, a: nat, b: nat)
    requires ValidRun(m, cfg, worlds, steps) && a < b < |steps|
    requires steps[a].Commits? && steps[b].Commits? && !IsPlain(steps[a]) && !IsPlain(steps[b])
    ensures steps[a].ex.metadata.commitID != steps[b].ex.metadata.commitID
  {
    StepOfRun(m, cfg, worlds, steps, a);
    StepOfRun(m, cfg, worlds, steps, b);
    DecidedOutcome(m, cfg, steps[a].ex);
    DecidedOutcome(m, cfg, steps[b].ex);
    OneCommitPerCommand(m, cfg, worlds, steps, a, b);
  }

  lemma {:induction false} StampedSnoc(h: seq<Rebuild.Commit>, c: Rebuild.Commit)
    requires Stamped(h) && c.id != "" && forall i | 0 <= i < |h| :: h[i].id != c.id
    ensures Stamped(h + [c])
  {}

  lemma {:induction false} EarlierIDDiffers(
    m: Machine, cfg: Config, worlds: seq<World>, steps: seq<RunStep>, k: nat, i: nat)
    requires ValidRun(m, cfg, worlds, steps) && PlainIDsDiffer(m, cfg, steps)
    requires k < |steps| && Logged(m, cfg, steps[k]) != [] && i < |LoggedIn(m, cfg, steps[..k])|
    ensures LoggedIn(m, cfg, steps[..k])[i].id != steps[k].ex.metadata.commitID
  {
    var a := LoggedOrigin(m, cfg, steps[..k], i);
    assert steps[..k][a] == steps[a];
    if IsPlain(steps[a]) {
      assert PlainPair(m, cfg, steps[a], steps[k]);
    } else if IsPlain(steps[k]) {
      assert PlainPair(m, cfg, steps[k], steps[a]);
    } else {
      DecidedDiffer(m, cfg, worlds, steps, a, k);
    }
  }

  lemma {:induction false} NewID(m: Machine, cfg: Config, worlds: seq<World>, steps: seq<RunStep>, k: nat)
    requires ValidRun(m, cfg, worlds, steps) && PlainIDsDiffer(m, cfg, steps)
    requires k < |steps| && Logged(m, cfg, steps[k]) != []
    ensures var h, id := LoggedIn(m, cfg, steps[..k]), steps[k].ex.metadata.commitID;
            id != "" && forall i | 0 <= i < |h| :: h[i].id != id
  {
    StepOfRun(m, cfg, worlds, steps, k);
    var h := LoggedIn(m, cfg, steps[..k]);
    forall i | 0 <= i < |h| ensures h[i].id != steps[k].ex.metadata.commitID {
      EarlierIDDiffers(m, cfg, worlds, steps, k, i);
    }
  }

  lemma {:induction false} OneMoreStamped(
    m: Machine, cfg: Config, worlds: seq<World>, steps: seq<RunStep>, k: nat, h: seq<Rebuild.Commit>)
    requires ValidRun(m, cfg, worlds, steps) && PlainIDsDiffer(m, cfg, steps) && k < |steps|
    requires h == LoggedIn(m, cfg, steps[..k]) && Stamped(h)
    ensures Stamped(h + Logged(m, cfg, steps[k]))
  {
    var more := Logged(m, cfg, steps[k]);
    if more == [] {
      assert h + more == h;
    } else {
      NewID(m, cfg, worlds, steps, k);
      StampedSnoc(h, more[0]);
      assert more == [more[0]];
    }
  }

  lemma {:induction false} DifferentIsStamped(
    m: Machine, cfg: Config, worlds: seq<World>, steps: seq<RunStep>, n: nat)
    requires ValidRun(m, cfg, worlds, steps) && PlainIDsDiffer(m, cfg, steps) && n <= |steps|
    ensures Stamped(LoggedIn(m, cfg, steps[..n]))
  {
    if n > 0 {
      var k := n - 1;
      DifferentIsStamped(m, cfg, worlds, steps, k);
      LoggedSnoc(m, cfg, steps, k);
      OneMoreStamped(m, cfg, worlds, steps, k, LoggedIn(m, cfg, steps[..k]));
    }
  }

  lemma {:induction false} StampedDiffer(m: Machine, cfg: Config, steps: seq<RunStep>, a: nat, b: nat)
    requires Stamped(LoggedIn(m, cfg, steps)) && a < b < |steps|
    requires Logged(m, cfg, steps[a]) != [] && Logged(m, cfg, steps[b]) != []
    ensures steps[a].ex.metadata.commitID != steps[b].ex.metadata.commitID
  {
    var x, y := TwoPlaces(m, cfg, steps, a, b);
    PlacesDiffer(LoggedIn(m, cfg, steps), x, y);
  }

  lemma {:induction false} TwoPlaces(m: Machine, cfg: Config, steps: seq<RunStep>, a: nat, b: nat)
    returns (x: nat, y: nat)
    requires a < b < |steps| && Logged(m, cfg, steps[a]) != [] && Logged(m, cfg, steps[b]) != []
    ensures x < y < |LoggedIn(m, cfg, steps)|
    ensures LoggedIn(m, cfg, steps)[x].id == steps[a].ex.metadata.commitID
    ensures LoggedIn(m, cfg, steps)[y].id == steps[b].ex.metadata.commitID
  {
    x, y := |LoggedIn(m, cfg, steps[..a])|, |LoggedIn(m, cfg, steps[..b])|;
    LoggedPlace(m, cfg, steps, a);
    LoggedPlace(m, cfg, steps, b);
    LoggedPlace(m, cfg, steps[..b], a);
    ShorterPrefix(steps, a, b);
  }

  lemma {:induction false} ShorterPrefix(steps: seq<RunStep>, a: nat, b: nat)
    requires a <= b <= |steps|
    ensures steps[..b][..a] == steps[..a]
  {}

  lemma {:induction false} PlacesDiffer(h: seq<Rebuild.Commit>, i: nat, j: nat)
    requires Stamped(h) && i < j < |h|
    ensures h[i].id != h[j].id
  {}

  /**
    A run's commits have unique IDs exactly when each plain commit's ID is its own: decided ones
    carry their command's ID, which no run commits twice.
   */
  lemma {:induction false} StampedExactly(m: Machine, cfg: Config, worlds: seq<World>, steps: seq<RunStep>)
    requires ValidRun(m, cfg, worlds, steps)
    ensures Stamped(LoggedIn(m, cfg, steps)) <==> PlainIDsDiffer(m, cfg, steps)
  {
    if PlainIDsDiffer(m, cfg, steps) {
      DifferentIsStamped(m, cfg, worlds, steps, |steps|);
      assert steps[..|steps|] == steps;
    }
    if Stamped(LoggedIn(m, cfg, steps)) {
      forall i, j | 0 <= i < |steps| && 0 <= j < |steps| && i != j && PlainPair(m, cfg, steps[i], steps[j])
        ensures steps[i].ex.metadata.commitID != steps[j].ex.metadata.commitID
      {
        if i < j { StampedDiffer(m, cfg, steps, i, j); } else { StampedDiffer(m, cfg, steps, j, i); }
      }
    }
  }

  // ----- What the duplicate window catches

  predicate Carries(m: Machine, cfg: Config, step: RunStep, e: Event)
  {
    Logged(m, cfg, step) != [] && e in Logged(m, cfg, step)[0].events
  }

  lemma {:induction false} CommandShows(events: seq<Event>, i: nat)
    requires i < |events|
    ensures CommandOf(events[i]) <= Commands(events)
  {
    if i < |events| - 1 { CommandShows(events[..|events| - 1], i); }
  }

  /** An event of the history after what a load's snapshot covered is among those it saw. */
  lemma {:induction false} WindowShows(v: World, o: Observation, e: Event)
    requires SawCommands(v, o.entity, o.loaded, o.covered) && o.covered < e.sequence <= o.loaded.head
    requires History(v, o.entity)[e.sequence - 1] == e
    ensures CommandOf(e) <= o.loaded.seen
  {
    var window := History(v, o.entity)[o.covered..o.loaded.head];
    assert window[e.sequence - 1 - o.covered] == e;
    CommandShows(window, e.sequence - 1 - o.covered);
  }

  /** A committed event stays at its place in the history. */
  lemma {:induction false} EventHasItsPlace(m: Machine, w: World, n: SerializedResult, next: World, e: Event)
    requires StreamInv(m, w, e.entity) && Admits(w.rows, n) && Contiguous(n) && HonestSnapshots(m, w, n)
    requires e in n.events
    requires next == Next(w, CommitStep(n))
    ensures 1 <= e.sequence <= |History(next, e.entity)| && History(next, e.entity)[e.sequence - 1] == e
  {
    CommitKeepsStream(m, w, n, e.entity);
    StreamMember(n.events, e.entity, e);
    var stream := Stream(n.events, e.entity);
    assert ContiguousStream(stream, e.entity) && Continues(w.rows, e.entity, stream);
    CommittedHead(w, n, e.entity);
    PlaceAfter(History(w, e.entity), stream, e);
  }

  lemma {:induction false} PlaceAfter(h: seq<Event>, stream: seq<Event>, e: Event)
    requires e in stream && ContiguousStream(stream, e.entity) && stream[0].sequence == |h| + 1
    ensures 1 <= e.sequence <= |h + stream| && (h + stream)[e.sequence - 1] == e
  {
    var k :| 0 <= k < |stream| && stream[k] == e;
    assert (h + stream)[|h| + k] == e;
  }

  /** What a decided or plain commit of the run read, and the world it applied in. */
  lemma {:induction false} CommitInRun(m: Machine, cfg: Config, worlds: seq<World>, steps: seq<RunStep>, k: nat)
    requires ValidRun(m, cfg, worlds, steps) && k < |steps| && steps[k].Commits?
    ensures var ex := steps[k].ex;
            && Built(m, cfg, worlds[..k + 1], steps[k]) && SawCurrent(m, worlds[k], ex.loads) && Inv(m, worlds[k])
            && Honest(m, worlds[k], CommitStep(Normalized(CommitOf(m, cfg, ex))))
            && Admits(worlds[k].rows, Normalized(CommitOf(m, cfg, ex)))
            && worlds[k + 1] == Next(worlds[k], CommitStep(Normalized(CommitOf(m, cfg, ex))))
  {
    RunKeepsInvariant(m, cfg, worlds, steps, k);
    StepOfRun(m, cfg, worlds, steps, k);
    StepIsHonest(m, cfg, worlds[..k + 1], steps[k]);
  }

  lemma {:induction false} HistoryGrows(
    m: Machine, cfg: Config, worlds: seq<World>, steps: seq<RunStep>, a: nat, b: nat, id: string)
    requires ValidRun(m, cfg, worlds, steps) && a <= b <= |steps|
    ensures History(worlds[a], id) <= History(worlds[b], id)
  {
    RunKeepsInvariant(m, cfg, worlds, steps, b);
    assert worlds[..b + 1][a] == worlds[a] && worlds[..b + 1][b] == worlds[b];
    assert Grows(worlds[a], worlds[b]);
  }

  lemma {:induction false} HistorySince(
    m: Machine, cfg: Config, worlds: seq<World>, steps: seq<RunStep>, i: nat, j: nat, id: string)
    requires ValidRun(m, cfg, worlds, steps) && i < j <= |steps|
    ensures History(worlds[i + 1], id) <= History(worlds[j], id)
  {
    HistoryGrows(m, cfg, worlds, steps, i + 1, j, id);
  }

  /** The load of a commit in a run had read the whole history of the stream at its commit. */
  lemma {:induction false} LoadReadAll(
    m: Machine, cfg: Config, worlds: seq<World>, steps: seq<RunStep>, j: nat, k: nat)
    requires ValidRun(m, cfg, worlds, steps) && j < |steps| && steps[j].Commits? && k < |steps[j].ex.loads|
    ensures var o := steps[j].ex.loads[k];
            && o.time <= j && o.loaded.head == |History(worlds[j], o.entity)|
            && History(worlds[o.time], o.entity) == History(worlds[j], o.entity)
            && SawCommands(worlds[o.time], o.entity, o.loaded, o.covered)
  {
    var o := steps[j].ex.loads[k];
    CommitInRun(m, cfg, worlds, steps, j);
    assert Observed(m, worlds[..j + 1], o);
    HistoryGrows(m, cfg, worlds, steps, o.time, j, o.entity);
  }

  /** Where an event of an earlier commit is when a later one applies. */
  lemma {:induction false} EventStays(
    m: Machine, cfg: Config, worlds: seq<World>, steps: seq<RunStep>, i: nat, j: nat, e: Event)
    requires ValidRun(m, cfg, worlds, steps) && i < j <= |steps| && Carries(m, cfg, steps[i], e)
    ensures var h := History(worlds[j], e.entity); 1 <= e.sequence <= |h| && h[e.sequence - 1] == e
  {
    EventLands(m, cfg, worlds, steps, i, e);
    HistorySince(m, cfg, worlds, steps, i, j, e.entity);
    PlaceStays(History(worlds[i + 1], e.entity), History(worlds[j], e.entity), e);
  }

  lemma {:induction false} PlaceStays(h: seq<Event>, later: seq<Event>, e: Event)
    requires h <= later && 1 <= e.sequence <= |h| && h[e.sequence - 1] == e
    ensures e.sequence <= |later| && later[e.sequence - 1] == e
  {}

  lemma {:induction false} EventLands(
    m: Machine, cfg: Config, worlds: seq<World>, steps: seq<RunStep>, i: nat, e: Event)
    requires ValidRun(m, cfg, worlds, steps) && i < |steps| && Carries(m, cfg, steps[i], e)
    ensures var h := History(worlds[i + 1], e.entity); 1 <= e.sequence <= |h| && h[e.sequence - 1] == e
  {
    CommitInRun(m, cfg, worlds, steps, i);
    assert StreamInv(m, worlds[i], e.entity);
    EventHasItsPlace(m, worlds[i], Normalized(CommitOf(m, cfg, steps[i].ex)), worlds[i + 1], e);
  }

  lemma {:induction false} UnrepeatedLoad(m: Machine, ex: Execution, command: string, k: nat)
    requires Consistent(ex) && Unrepeated(m, ex) && k < |ex.loads|
    requires ex.metadata.commandID == Some(command) && command != ""
    ensures command !in ex.loads[k].loaded.seen
  {
    var streams := ReadSet(m, ex.loads, Decides(ex).writes);
    ReadSetLists(m, ex.loads, Decides(ex).writes);
    assert Entities(ex.loads)[k] == ex.loads[k].entity;
    assert !RepeatedIn(streams, Entities(ex.loads)[k], command);
  }

  /**
    A command ID a run commits twice escaped the duplicate window: on every stream the later
    commit read, a snapshot already covered what the earlier one had written there.
   */
  lemma {:induction false} RepeatEscapesWindow(
    m: Machine, cfg: Config, worlds: seq<World>, steps: seq<RunStep>, i: nat, j: nat, command: string, k: nat, e: Event)
    requires ValidRun(m, cfg, worlds, steps) && i < j < |steps| && steps[i].Commits? && steps[j].Commits?
    requires steps[i].ex.metadata.commandID == steps[j].ex.metadata.commandID == Some(command) && command != ""
    requires Carries(m, cfg, steps[i], e)
    requires k < |steps[j].ex.loads| && steps[j].ex.loads[k].entity == e.entity
    ensures e.sequence <= steps[j].ex.loads[k].covered
  {
    var o := steps[j].ex.loads[k];
    EventStays(m, cfg, worlds, steps, i, j, e);
    LoadReadAll(m, cfg, worlds, steps, j, k);
    CommitInRun(m, cfg, worlds, steps, i);
    CommitInRun(m, cfg, worlds, steps, j);
    CommittedMetadata(m, cfg, steps[i].ex, e);
    UnrepeatedLoad(m, steps[j].ex, command, k);
    if e.sequence > o.covered { WindowShows(worlds[o.time], o, e); }
  }

  // ----- The log of an uncompacted store

  predicate NoCompaction(steps: seq<RunStep>)
  {
    forall k | 0 <= k < |steps| :: !steps[k].Compacts?
  }

  /** Without a compaction the store holds the whole history. */
  lemma {:induction false} StoreHoldsHistory(m: Machine, cfg: Config, worlds: seq<World>, steps: seq<RunStep>, n: nat)
    requires ValidRun(m, cfg, worlds, steps) && NoCompaction(steps) && n <= |steps|
    ensures worlds[n].rows.events == worlds[n].history
  {
    if n > 0 {
      StoreHoldsHistory(m, cfg, worlds, steps, n - 1);
      StillHoldsHistory(m, cfg, worlds, steps, n - 1);
    }
  }

  lemma {:induction false} StillHoldsHistory(
    m: Machine, cfg: Config, worlds: seq<World>, steps: seq<RunStep>, k: nat)
    requires ValidRun(m, cfg, worlds, steps) && NoCompaction(steps) && k < |steps|
    requires worlds[k].rows.events == worlds[k].history
    ensures worlds[k + 1].rows.events == worlds[k + 1].history
  {
    StepOfRun(m, cfg, worlds, steps, k);
    StepHoldsHistory(worlds[k], StepOf(m, cfg, steps[k]));
  }

  lemma {:induction false} StepHoldsHistory(w: World, step: StoreStep)
    requires w.rows.events == w.history && !step.CompactStep?
    ensures Next(w, step).rows.events == Next(w, step).history
  {}

  /** A scan of the store: every stream's stored events, in any order. */
  ghost predicate Scan(rows: Rows, log: seq<Event>)
  {
    forall id :: multiset(Stream(log, id)) == multiset(StoredAll(Log(rows, id)))
  }

  lemma {:induction false} StoredAppend(a: seq<Event>, b: seq<Event>)
    ensures StoredAll(a + b) == StoredAll(a) + StoredAll(b)
  {}

  lemma {:induction false} StoredStream(events: seq<Event>, id: string)
    ensures Stream(StoredAll(events), id) == StoredAll(Stream(events, id))
  {
    if events != [] {
      var front, e := events[..|events| - 1], events[|events| - 1];
      StoredStream(front, id);
      assert events == front + [e];
      StreamSnoc(front, e, id);
      StoredAppend(front, [e]);
      assert StoredAll([e]) == [Stored(e)];
      StreamSnoc(StoredAll(front), Stored(e), id);
      StoredAppend(Stream(front, id), if e.entity == id then [e] else []);
    }
  }

  lemma {:induction false} StoredLogStream(h: seq<Rebuild.Commit>, id: string)
    ensures Stream(Rebuild.StoredLog(h), id) == StoredAll(WrittenTo(h, id))
  {
    if h != [] {
      var front, c := h[..|h| - 1], h[|h| - 1];
      StoredLogStream(front, id);
      StreamAppend(Rebuild.StoredLog(front), StoredAll(c.events), id);
      StoredStream(c.events, id);
      StoredAppend(WrittenTo(front, id), Stream(c.events, id));
    }
  }

  lemma {:induction false} SameByStream(a: seq<Event>, b: seq<Event>)
    requires forall id :: multiset(Stream(a, id)) == multiset(Stream(b, id))
    ensures multiset(a) == multiset(b)
  {
    forall e ensures multiset(a)[e] == multiset(b)[e] {
      StreamIsFilter(a, e.entity);
      StreamIsFilter(b, e.entity);
      FilterCount((x: Event) => x.entity == e.entity, a, e);
      FilterCount((x: Event) => x.entity == e.entity, b, e);
      assert multiset(Stream(a, e.entity)) == multiset(Stream(b, e.entity));
    }
  }

  /** A scan of an uncompacted store after a run with stamped commits is the log of a live history. */
  lemma {:induction false} ScanIsLog(m: Machine, cfg: Config, worlds: seq<World>, steps: seq<RunStep>, log: seq<Event>)
    requires ValidRun(m, cfg, worlds, steps) && NoCompaction(steps) && Stamped(LoggedIn(m, cfg, steps))
    requires Scan(worlds[|steps|].rows, log)
    ensures Rebuild.LogOf(LoggedIn(m, cfg, steps), log)
  {
    var h, w := LoggedIn(m, cfg, steps), worlds[|steps|];
    RunIsLiveHistory(m, cfg, worlds, steps);
    StoreHoldsHistory(m, cfg, worlds, steps, |steps|);
    forall id ensures multiset(Stream(log, id)) == multiset(Stream(Rebuild.StoredLog(h), id)) {
      StoredLogStream(h, id);
      assert WrittenTo(h, id) == History(w, id) == Log(w.rows, id);
    }
    SameByStream(log, Rebuild.StoredLog(h));
  }
}
