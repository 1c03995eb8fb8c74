/**
  The states projectors see beside a commit. Rebuild folds each stream's events over commit
  views; here those folds are tied to the history itself: beside every commit of every run, a
  stream's state is the fold of all the stream's events up to and including that commit.
 */
module RunStates {
  import opened Basics
  import opened Sequences
  import opened Order
  import opened CommitLog
  import opened Commit
  import opened StreamStore
  import opened Transaction
  import opened Serial
  import opened LiveRuns
  import Rebuild

  ghost predicate InOrder(events: seq<Event>)
  {
    forall id :: ContiguousStream(Stream(events, id), id)
  }

  lemma {:induction false} ContiguousAscends(stream: seq<Event>, id: string)
    requires ContiguousStream(stream, id)
    ensures Sorted(stream, EventKey) && DistinctKeys(stream, EventKey)
  {}

  /** A stream that is in order already is not reordered by sorting the commit. */
  lemma {:induction false} SortingKeepsStream(events: seq<Event>, id: string)
    requires ContiguousStream(Stream(events, id), id)
    ensures Stream(Sort(events, EventKey), id) == Stream(events, id)
  {
    var sorted := Sort(events, EventKey);
    SortKeeps(events, EventKey);
    StreamIsFilter(events, id);
    StreamIsFilter(sorted, id);
    var p := (e: Event) => e.entity == id;
    FilterPermutes(p, events, sorted);
    FilterKeepsOrder(p, sorted, EventKey);
    var a, b := Stream(events, id), Stream(sorted, id);
    ContiguousAscends(a, id);
    DistinctKept(a, b, EventKey);
    UnstableIsStable(a, a, EventKey);
    UnstableIsStable(a, b, EventKey);
  }

  lemma {:induction false} OwnStream(events: seq<Event>, owner: string, id: string)
    requires forall e | e in events :: e.entity == owner
    ensures Stream(events, id) == if owner == id then events else []
  {
    StreamIsFilter(events, id);
    var p := (e: Event) => e.entity == id;
    if owner == id { FilterAll(p, events); } else { FilterEmpty(p, events); }
  }

  /** What a view's streams hold of one stream is what the view holds of it. */
  lemma {:induction false} ViewStream(streams: seq<CommitStream>, id: string)
    requires forall i | 0 <= i < |streams| :: OwnEvents(streams[i])
    ensures FlatMap((s: CommitStream) => if s.entity == id then s.events else [], streams) ==
            Stream(StreamEvents(streams), id)
  {
    if streams != [] {
      var front, s := streams[..|streams| - 1], streams[|streams| - 1];
      ViewStream(front, id);
      StreamAppend(StreamEvents(front), s.events, id);
      OwnStream(s.events, s.entity, id);
    }
  }

  lemma {:induction false} LiveStream(c: Rebuild.Commit, id: string)
    requires InOrder(c.events)
    ensures Rebuild.EventsIn(Rebuild.LiveView(c), id) == StoredAll(Stream(c.events, id))
  {
    var view := Rebuild.LiveView(c);
    ViewHoldsGroup(c.events, map[]);
    ViewStream(view.streams, id);
    StoredStream(Sort(c.events, EventKey), id);
    assert ContiguousStream(Stream(c.events, id), id);
    SortingKeepsStream(c.events, id);
  }

  /** The events a stream's state is folded from are the stored events written to it. */
  lemma {:induction false} FoldedEvents(h: seq<Rebuild.Commit>, id: string)
    requires forall i | 0 <= i < |h| :: InOrder(h[i].events)
    ensures FlatMap((v: CommitView) => Rebuild.EventsIn(v, id), Rebuild.LiveViews(h)) == StoredAll(WrittenTo(h, id))
  {
    if h != [] {
      var front, c := h[..|h| - 1], h[|h| - 1];
      FoldedEvents(front, id);
      FoldedSnoc(front, c, id);
      assert h == front + [c];
    }
  }

  lemma {:induction false} FoldedSnoc(h: seq<Rebuild.Commit>, c: Rebuild.Commit, id: string)
    requires InOrder(c.events)
    ensures var f := (v: CommitView) => Rebuild.EventsIn(v, id);
            FlatMap(f, Rebuild.LiveViews(h + [c])) == FlatMap(f, Rebuild.LiveViews(h)) + StoredAll(Stream(c.events, id))
    ensures StoredAll(WrittenTo(h + [c], id)) == StoredAll(WrittenTo(h, id)) + StoredAll(Stream(c.events, id))
  {
    var f := (v: CommitView) => Rebuild.EventsIn(v, id);
    assert Rebuild.LiveViews(h + [c]) == Rebuild.LiveViews(h) + [Rebuild.LiveView(c)];
    FlatMapSnoc(f, Rebuild.LiveViews(h), Rebuild.LiveView(c));
    LiveStream(c, id);
    FlatMapSnoc((x: Rebuild.Commit) => Stream(x.events, id), h, c);
    StoredAppend(WrittenTo(h, id), Stream(c.events, id));
  }

  lemma {:induction false} CommitsAreInOrder(
    m: Machine, cfg: Config, worlds: seq<World>, steps: seq<RunStep>, n: nat, i: nat)
    requires ValidRun(m, cfg, worlds, steps) && n <= |steps| && i < |LoggedIn(m, cfg, steps[..n])|
    ensures InOrder(LoggedIn(m, cfg, steps[..n])[i].events)
  {
    var k := n - 1;
    LoggedSnoc(m, cfg, steps, k);
    var before := LoggedIn(m, cfg, steps[..k]);
    if i < |before| {
      CommitsAreInOrder(m, cfg, worlds, steps, k, i);
    } else {
      RunKeepsInvariant(m, cfg, worlds, steps, k);
      StepOfRun(m, cfg, worlds, steps, k);
      StepIsHonest(m, cfg, worlds[..k + 1], steps[k]);
    }
  }

  lemma {:induction false} FoldSteps(apply: (string, Event) -> string, events: seq<Event>, e: Event)
    ensures Rebuild.Fold(apply, []) == ""
    ensures Rebuild.Fold(apply, events + [e]) == apply(Rebuild.Fold(apply, events), e)
  {}

  /** After any number of steps, a stream's state over the logged commits is its history's. */
  lemma {:induction false} StateIsOfHistory(
    m: Machine, cfg: Config, worlds: seq<World>, steps: seq<RunStep>, n: nat, apply: (string, Event) -> string,
    id: string)
    requires ValidRun(m, cfg, worlds, steps) && n <= |steps|
    ensures Rebuild.StateAfter(apply, Rebuild.LiveViews(LoggedIn(m, cfg, steps[..n])), id) ==
            Rebuild.Fold(apply, StoredAll(History(worlds[n], id)))
  {
    var h := LoggedIn(m, cfg, steps[..n]);
    forall i | 0 <= i < |h| ensures InOrder(h[i].events) { CommitsAreInOrder(m, cfg, worlds, steps, n, i); }
    FoldedEvents(h, id);
    RunIsLive(m, cfg, worlds, steps, n);
    assert WrittenTo(h, id) == History(worlds[n], id);
  }

  ghost predicate StatesAre(apply: (string, Event) -> string, h: seq<Rebuild.Commit>, state: string -> string)
  {
    forall id :: Rebuild.StateAfter(apply, Rebuild.LiveViews(h), id) == state(id)
  }

  lemma {:induction false} StatesAreOfHistory(
    m: Machine, cfg: Config, worlds: seq<World>, steps: seq<RunStep>, n: nat, apply: (string, Event) -> string)
    requires ValidRun(m, cfg, worlds, steps) && n <= |steps|
    ensures StatesAre(apply, LoggedIn(m, cfg, steps[..n]), Folded(apply, worlds[n]))
  {
    var h, state := LoggedIn(m, cfg, steps[..n]), Folded(apply, worlds[n]);
    forall id ensures Rebuild.StateAfter(apply, Rebuild.LiveViews(h), id) == state(id) {
      StateIsOfHistory(m, cfg, worlds, steps, n, apply, id);
    }
  }

  /** Every stream of the view has the state it is given. */
  predicate Shows(view: CommitView, state: string -> string)
  {
    forall x | 0 <= x < |view.streams| :: view.streams[x].state == Some(state(view.streams[x].entity))
  }

  lemma {:induction false} StatesBeside(
    apply: (string, Event) -> string, h: seq<Rebuild.Commit>, i: nat, state: string -> string)
    requires i < |h|
    requires StatesAre(apply, h[..i + 1], state)
    ensures Shows(Rebuild.WithStates(apply, Rebuild.LiveViews(h))[i], state)
  {
    assert Rebuild.LiveViews(h)[..i + 1] == Rebuild.LiveViews(h[..i + 1]);
  }

  /** The history of every stream after a number of steps, folded. */
  ghost function Folded(apply: (string, Event) -> string, w: World): string -> string
  {
    (id: string) => Rebuild.Fold(apply, StoredAll(History(w, id)))
  }

  /** Commit `c` is number `i` of the log, and projectors see every stream of it with the state it is given. */
  ghost predicate SeenAt(
    all: seq<Rebuild.Commit>, i: nat, c: Rebuild.Commit, apply: (string, Event) -> string, state: string -> string)
  {
    i < |all| && all[i] == c && Shows(Rebuild.WithStates(apply, Rebuild.LiveViews(all))[i], state)
  }

  lemma {:induction false} SeenAfter(
    all: seq<Rebuild.Commit>, before: seq<Rebuild.Commit>, c: Rebuild.Commit, apply: (string, Event) -> string,
    state: string -> string)
    requires before + [c] <= all && StatesAre(apply, before + [c], state)
    ensures SeenAt(all, |before|, c, apply, state)
  {
    PrefixThrough(before, c, all);
    StatesBeside(apply, all, |before|, state);
  }

  /** The commit of step `k`, as projectors see it. */
  ghost predicate SeenBeside(
    m: Machine, cfg: Config, steps: seq<RunStep>, k: nat, apply: (string, Event) -> string, state: string -> string)
    requires k < |steps| && Logged(m, cfg, steps[k]) != []
  {
    SeenAt(LoggedIn(m, cfg, steps), |LoggedIn(m, cfg, steps[..k])|, Logged(m, cfg, steps[k])[0], apply, state)
  }

  lemma {:induction false} LoggedBeside(
    m: Machine, cfg: Config, steps: seq<RunStep>, k: nat, apply: (string, Event) -> string, state: string -> string)
    requires k < |steps| && Logged(m, cfg, steps[k]) != []
    requires StatesAre(apply, LoggedIn(m, cfg, steps[..k + 1]), state)
    ensures SeenBeside(m, cfg, steps, k, apply, state)
  {
    LoggedSnoc(m, cfg, steps, k);
    LoggedPrefix(m, cfg, steps, k + 1);
    var before, c := LoggedIn(m, cfg, steps[..k]), Logged(m, cfg, steps[k])[0];
    assert Logged(m, cfg, steps[k]) == [c];
    SeenAfter(LoggedIn(m, cfg, steps), before, c, apply, state);
  }

  /** Beside a commit, projectors see each written stream's history folded up to and including the commit. */
  lemma {:induction false} ProjectorsSeeHistory(
    m: Machine, cfg: Config, worlds: seq<World>, steps: seq<RunStep>, k: nat, apply: (string, Event) -> string)
    requires ValidRun(m, cfg, worlds, steps) && k < |steps| && Logged(m, cfg, steps[k]) != []
    ensures SeenBeside(m, cfg, steps, k, apply, Folded(apply, worlds[k + 1]))
  {
    StatesAreOfHistory(m, cfg, worlds, steps, k + 1, apply);
    LoggedBeside(m, cfg, steps, k, apply, Folded(apply, worlds[k + 1]));
  }

  lemma {:induction false} PrefixThrough<T>(before: seq<T>, x: T, all: seq<T>)
    requires before + [x] <= all
    ensures |before| < |all| && all[|before|] == x && all[..|before| + 1] == before + [x]
  {}
}
