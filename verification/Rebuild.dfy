/**
  A rebuild reproduces the live rows.

  A live history is a sequence of commits with unique IDs, each appending to its streams at
  their heads. The log keeps the stored events in no particular order. Regrouping the log and
  replaying it gives exactly the rows the live commits left, provided no row ever changed
  owner; when one did, the replay refuses.
 */
module Rebuild {
  import opened Basics
  import opened Order
  import opened Sequences
  import opened Topology
  import opened CommitLog
  import opened Grouping
  import opened Projection
  import opened Replay

  datatype Commit = Commit(id: string, events: seq<Event>)

  /** How many events of the stream the first `n` commits wrote. */
  function Head(h: seq<Commit>, n: nat, entity: string): nat
    requires n <= |h|
  {
    if n == 0 then 0
    else Head(h, n - 1, entity) + |Filter((e: Event) => e.entity == entity, h[n - 1].events)|
  }

  /** Commit `i` is tagged with its own ID and continues every stream from its head. */
  ghost predicate LiveCommit(h: seq<Commit>, i: nat)
    requires i < |h|
  {
    && h[i].id != "" && h[i].events != [] && DistinctKeys(h[i].events, EventKey)
    && forall e | e in h[i].events ::
         ID(e) == h[i].id && Head(h, i, e.entity) < e.sequence <= Head(h, i + 1, e.entity)
  }

  ghost predicate LiveHistory(h: seq<Commit>)
  {
    && (forall i | 0 <= i < |h| :: LiveCommit(h, i))
    && (forall i, j | 0 <= i < j < |h| :: h[i].id != h[j].id)
  }

  /** The stored events of the history. */
  function StoredLog(h: seq<Commit>): seq<Event>
  {
    FlatMap((c: Commit) => StoredAll(c.events), h)
  }

  /** The log holds exactly the stored events, in any order. */
  ghost predicate LogOf(h: seq<Commit>, log: seq<Event>)
  {
    LiveHistory(h) && multiset(log) == multiset(StoredLog(h))
  }

  // ----- Sequences follow the commit order

  lemma {:induction false} HeadRises(h: seq<Commit>, i: nat, j: nat, entity: string)
    requires i <= j <= |h|
    ensures Head(h, i, entity) <= Head(h, j, entity)
    decreases j
  {
    if i < j { HeadRises(h, i, j - 1, entity); }
  }

  lemma {:induction false} LaterCommitsWriteLater(h: seq<Commit>, i: nat, j: nat, e: Event, f: Event)
    requires LiveHistory(h) && i < j < |h|
    requires e in h[i].events && f in h[j].events && e.entity == f.entity
    ensures e.sequence < f.sequence
  {
    assert LiveCommit(h, i) && LiveCommit(h, j);
    HeadRises(h, i + 1, j, e.entity);
  }

  lemma {:induction false} StoredMember(events: seq<Event>, e: Event)
    requires e in StoredAll(events)
    ensures exists f :: f in events && e == Stored(f)
  {}

  /** Every logged event comes from the commit whose ID it carries. */
  lemma {:induction false} LoggedEvent(h: seq<Commit>, log: seq<Event>, e: Event) returns (i: nat, f: Event)
    requires LogOf(h, log) && e in log
    ensures i < |h| && f in h[i].events && e == Stored(f) && ID(e) == h[i].id
  {
    assert e in multiset(StoredLog(h));
    FlatMapMember((c: Commit) => StoredAll(c.events), h, e);
    var k :| 0 <= k < |h| && e in StoredAll(h[k].events);
    StoredMember(h[k].events, e);
    f :| f in h[k].events && e == Stored(f);
    i := k;
    assert LiveCommit(h, i);
  }

  lemma {:induction false} EventIsLogged(h: seq<Commit>, log: seq<Event>, i: nat, f: Event)
    requires LogOf(h, log) && i < |h| && f in h[i].events
    ensures Stored(f) in log
  {
    var k :| 0 <= k < |h[i].events| && h[i].events[k] == f;
    assert StoredAll(h[i].events)[k] == Stored(f);
    FlatMapMember((c: Commit) => StoredAll(c.events), h, Stored(f));
    assert Stored(f) in multiset(log);
  }

  // ----- The events of one commit within the log

  lemma {:induction false} CommitEventsCarryID(h: seq<Commit>, j: nat, id: string)
    requires LiveHistory(h) && j < |h|
    ensures Filter(e => ID(e) == id, StoredAll(h[j].events)) == if h[j].id == id then StoredAll(h[j].events) else []
  {
    var p, events := (e: Event) => ID(e) == id, StoredAll(h[j].events);
    assert LiveCommit(h, j);
    forall e | e in events ensures ID(e) == h[j].id { StoredMember(h[j].events, e); }
    if h[j].id == id { FilterAll(p, events); } else { FilterEmpty(p, events); }
  }

  lemma {:induction false} CommitInLog(h: seq<Commit>, i: nat)
    requires LiveHistory(h) && i < |h|
    ensures Filter(e => ID(e) == h[i].id, StoredLog(h)) == StoredAll(h[i].events)
  {
    var id := h[i].id;
    var f := (c: Commit) => StoredAll(c.events);
    var q := (c: Commit) => c.id == id;
    forall j | 0 <= j < |h| && !q(h[j]) ensures Filter(e => ID(e) == id, f(h[j])) == [] {
      CommitEventsCarryID(h, j, id);
    }
    FilterThroughFlatMap(e => ID(e) == id, f, q, h);
    FilterOne(q, h, i);
    FlatMapOne(f, h[i]);
    CommitEventsCarryID(h, i, id);
  }

  lemma {:induction false} FlatMapOne<T, U>(f: T -> seq<U>, x: T)
    ensures FlatMap(f, [x]) == f(x)
  {}

  lemma {:induction false} PickByID(sorted: seq<Event>, members: seq<nat>, g: nat, id: string)
    requires |members| == |sorted|
    requires forall i | 0 <= i < |sorted| :: members[i] == g <==> ID(sorted[i]) == id
    ensures Pick(sorted, members, g) == Filter(e => ID(e) == id, sorted)
  {
    if sorted != [] {
      var last := |sorted| - 1;
      PickByID(sorted[..last], members[..last], g, id);
    }
  }

  /** The group of an event is the stored form of its commit. */
  lemma {:induction false} GroupIsCommit(h: seq<Commit>, log: seq<Event>, x: nat, i: nat)
    requires LogOf(h, log) && x < |log| && i < |h|
    requires var sorted := Sort(log, EventKey); |sorted| == |log| && ID(sorted[x]) == h[i].id
    ensures var sorted := Sort(log, EventKey);
            multiset(Group(sorted, Members(sorted)[x])) == multiset(StoredAll(h[i].events))
  {
    var sorted := Sort(log, EventKey);
    var members := Members(sorted);
    SortKeeps(log, EventKey);
    MembersFollowCommits(sorted);
    assert LiveCommit(h, i);
    forall y | 0 <= y < |sorted| ensures members[y] == members[x] <==> ID(sorted[y]) == h[i].id {
      assert members[y] == members[x] <==> SameCommit(sorted, y, x);
    }
    PickByID(sorted, members, members[x], h[i].id);
    FilterPermutes(e => ID(e) == h[i].id, sorted, StoredLog(h));
    CommitInLog(h, i);
  }

  // ----- Storing does not change a commit's view

  lemma {:induction false} InsertStored(x: Event, xs: seq<Event>)
    ensures Insert(Stored(x), StoredAll(xs), EventKey) == StoredAll(Insert(x, xs, EventKey))
  {
    if xs != [] && !KeyLeq(EventKey(x), EventKey(xs[0])) {
      InsertStored(x, xs[1..]);
      assert StoredAll(xs)[1..] == StoredAll(xs[1..]);
    }
  }

  lemma {:induction false} SortStored(xs: seq<Event>)
    ensures Sort(StoredAll(xs), EventKey) == StoredAll(Sort(xs, EventKey))
  {
    if xs != [] {
      SortStored(xs[1..]);
      assert StoredAll(xs)[1..] == StoredAll(xs[1..]);
      InsertStored(xs[0], Sort(xs[1..], EventKey));
    }
  }

  lemma {:induction false} StreamsStored(sorted: seq<Event>)
    ensures Streams(StoredAll(sorted), map[]) == Streams(sorted, map[])
  {
    if sorted != [] {
      var last := |sorted| - 1;
      StreamsStored(sorted[..last]);
      assert StoredAll(sorted)[..last] == StoredAll(sorted[..last]);
      StoredExactly(sorted[last]);
      assert StoredAll(sorted)[last] == Stored(sorted[last]);
    }
  }

  lemma {:induction false} ViewOfStored(events: seq<Event>)
    ensures NewCommitView(StoredAll(events), map[]) == NewCommitView(events, map[])
  {
    SortStored(events);
    StreamsStored(Sort(events, EventKey));
  }

  lemma {:induction false} StoredStaysDistinct(events: seq<Event>)
    requires DistinctKeys(events, EventKey)
    ensures DistinctKeys(StoredAll(events), EventKey)
  {}

  function LiveView(c: Commit): CommitView { NewCommitView(c.events, map[]) }

  /** The view of an event's group is its commit's live view. */
  lemma {:induction false} GroupViewIsLive(h: seq<Commit>, log: seq<Event>, x: nat, i: nat)
    requires LogOf(h, log) && x < |log| && i < |h|
    requires var sorted := Sort(log, EventKey); |sorted| == |log| && ID(sorted[x]) == h[i].id
    ensures var sorted := Sort(log, EventKey);
            NewCommitView(Group(sorted, Members(sorted)[x]), map[]) == LiveView(h[i])
  {
    var sorted := Sort(log, EventKey);
    var group := Group(sorted, Members(sorted)[x]);
    GroupIsCommit(h, log, x, i);
    assert LiveCommit(h, i);
    StoredStaysDistinct(h[i].events);
    SortIgnoresOrder(StoredAll(h[i].events), group, EventKey);
    ViewOfStored(h[i].events);
  }

  // ----- A serial log has an order

  lemma {:induction false} LiveEventsDistinct(h: seq<Commit>, n: nat)
    requires LiveHistory(h) && n <= |h|
    ensures DistinctKeys(StoredLog(h[..n]), EventKey)
  {
    if n > 0 {
      LiveEventsDistinct(h, n - 1);
      assert h[..n] == h[..n - 1] + [h[n - 1]];
      FlatMapSnoc((c: Commit) => StoredAll(c.events), h[..n - 1], h[n - 1]);
      assert LiveCommit(h, n - 1);
      StoredStaysDistinct(h[n - 1].events);
      var a, b := StoredLog(h[..n - 1]), StoredAll(h[n - 1].events);
      forall x, y | 0 <= x < |a| && 0 <= y < |b| ensures EventKey(a[x]) != EventKey(b[y]) {
        EarlierKeyDiffers(h, n - 1, a[x], h[n - 1].events[y]);
      }
    }
  }

  lemma {:induction false} EarlierKeyDiffers(h: seq<Commit>, n: nat, e: Event, f: Event)
    requires LiveHistory(h) && n < |h| && e in StoredLog(h[..n]) && f in h[n].events
    ensures EventKey(e) != EventKey(Stored(f))
  {
    FlatMapMember((c: Commit) => StoredAll(c.events), h[..n], e);
    var k :| 0 <= k < n && e in StoredAll(h[..n][k].events);
    StoredMember(h[k].events, e);
    var d :| d in h[k].events && e == Stored(d);
    if d.entity == f.entity { LaterCommitsWriteLater(h, k, n, d, f); }
  }

  /** The sorted log: ordered, a permutation of the stored events, with distinct keys. */
  lemma {:induction false} SortedLog(h: seq<Commit>, log: seq<Event>)
    requires LogOf(h, log)
    ensures var sorted := Sort(log, EventKey);
            && Sorted(sorted, EventKey) && DistinctKeys(sorted, EventKey)
            && LogOf(h, sorted) && |sorted| == |log|
  {
    LiveEventsDistinct(h, |h|);
    assert h[..|h|] == h;
    DistinctKept(StoredLog(h), log, EventKey);
    SortKeeps(log, EventKey);
    DistinctKept(log, Sort(log, EventKey), EventKey);
    assert |multiset(log)| == |multiset(Sort(log, EventKey))|;
  }

  function IndexOf(h: seq<Commit>, id: string): (i: nat)
    ensures i <= |h|
    ensures i < |h| ==> h[i].id == id
    ensures (exists k | 0 <= k < |h| :: h[k].id == id) ==> i < |h|
  {
    if h == [] then 0
    else if h[0].id == id then 0
    else
      assert forall k | 0 < k < |h| :: h[k] == h[1..][k - 1];
      1 + IndexOf(h[1..], id)
  }

  function GroupID(sorted: seq<Event>, g: nat): string
  {
    if Group(sorted, g) == [] then "" else ID(Group(sorted, g)[0])
  }

  /** Members of one group carry the group's ID. */
  lemma {:induction false} GroupIDOfMember(sorted: seq<Event>, x: nat)
    requires x < |sorted|
    ensures GroupID(sorted, Members(sorted)[x]) == ID(sorted[x])
  {
    var members := Members(sorted);
    var g := members[x];
    PickMember(sorted, members, g, x);
    var y := PickFirstPosition(sorted, members, g);
    MembersFollowCommits(sorted);
    assert SameCommit(sorted, x, y);
  }

  /** Two commits of one stream are in history order exactly when their events are. */
  lemma {:induction false} EventOrderIsCommitOrder(h: seq<Commit>, sorted: seq<Event>, x: nat, y: nat, i: nat, j: nat)
    requires LogOf(h, sorted) && Sorted(sorted, EventKey) && DistinctKeys(sorted, EventKey)
    requires x < |sorted| && y < |sorted| && sorted[x].entity == sorted[y].entity
    requires i < |h| && j < |h| && ID(sorted[x]) == h[i].id && ID(sorted[y]) == h[j].id
    ensures i < j ==> x < y
  {
    if i < j {
      var i', e := LoggedEvent(h, sorted, sorted[x]);
      var j', f := LoggedEvent(h, sorted, sorted[y]);
      assert i' == i && j' == j;
      LaterCommitsWriteLater(h, i, j, e, f);
      assert x > y ==> KeyLeq(EventKey(sorted[y]), EventKey(sorted[x]));
    }
  }

  /** Any log of serial commits with unique IDs can be ordered. */
  lemma {:induction false} SerialLogIsOrdered(h: seq<Commit>, log: seq<Event>)
    requires LogOf(h, log)
    ensures Acyclic(CommitEdges(Sort(log, EventKey)))
  {
    var sorted := Sort(log, EventKey);
    SortedLog(h, log);
    var rank := (g: nat) => IndexOf(h, GroupID(sorted, g));
    forall e | e in CommitEdges(sorted) ensures rank(e.0) < rank(e.1) { EdgeRises(h, sorted, e); }
    RankedIsAcyclic(CommitEdges(sorted), rank);
  }

  lemma {:induction false} StepRises(h: seq<Commit>, sorted: seq<Event>, x: nat)
    requires LogOf(h, sorted) && Sorted(sorted, EventKey) && DistinctKeys(sorted, EventKey)
    requires 1 <= x < |sorted| && sorted[x - 1].entity == sorted[x].entity && ID(sorted[x - 1]) != ID(sorted[x])
    ensures IndexOf(h, ID(sorted[x - 1])) < IndexOf(h, ID(sorted[x]))
  {
    var i, _ := LoggedEvent(h, sorted, sorted[x - 1]);
    var j, _ := LoggedEvent(h, sorted, sorted[x]);
    EventOrderIsCommitOrder(h, sorted, x, x - 1, j, i);
  }

  lemma {:induction false} EdgeStep(sorted: seq<Event>, m: seq<nat>, e: Edge) returns (x: nat)
    requires |m| == |sorted| && e in EdgesOf(sorted, m)
    ensures 1 <= x < |sorted| && sorted[x - 1].entity == sorted[x].entity
    ensures m[x - 1] == e.0 && m[x] == e.1 && e.0 != e.1
  {
    EdgesAreSteps(sorted, m, e);
    x :| 1 <= x < |sorted| && sorted[x - 1].entity == sorted[x].entity && m[x - 1] == e.0 && m[x] == e.1 && e.0 != e.1;
  }

  lemma {:induction false} EdgeRises(h: seq<Commit>, sorted: seq<Event>, e: Edge)
    requires LogOf(h, sorted) && Sorted(sorted, EventKey) && DistinctKeys(sorted, EventKey)
    requires e in CommitEdges(sorted)
    ensures IndexOf(h, GroupID(sorted, e.0)) < IndexOf(h, GroupID(sorted, e.1))
  {
    var x := EdgeStep(sorted, Members(sorted), e);
    GroupIDOfMember(sorted, x - 1);
    GroupIDOfMember(sorted, x);
    OtherGroupOtherID(h, sorted, x - 1, x);
    StepRises(h, sorted, x);
  }

  lemma {:induction false} LoggedHasID(h: seq<Commit>, sorted: seq<Event>, x: nat)
    requires LogOf(h, sorted) && x < |sorted|
    ensures ID(sorted[x]) != ""
  {
    var i, _ := LoggedEvent(h, sorted, sorted[x]);
    assert LiveCommit(h, i);
  }

  // ----- The regrouped views are the live views, in an order every stream agrees with

  /** The first sequence a view wrote to a stream. */
  function SeqOf(streams: seq<CommitStream>, entity: string): int
  {
    if streams == [] then 0
    else if streams[0].entity == entity && streams[0].events != [] then streams[0].events[0].sequence
    else SeqOf(streams[1..], entity)
  }

  function SeqKey(entity: string): CommitView -> Key
  {
    (v: CommitView) => ("", "", SeqOf(v.streams, entity))
  }

  lemma {:induction false} StreamEventsMember(streams: seq<CommitStream>, i: nat, e: Event)
    requires i < |streams| && e in streams[i].events
    ensures e in StreamEvents(streams)
  {
    var last := |streams| - 1;
    if i < last { StreamEventsMember(streams[..last], i, e); }
  }

  lemma {:induction false} SeqOfIsWritten(streams: seq<CommitStream>, entity: string) returns (i: nat)
    requires forall k | 0 <= k < |streams| :: OwnEvents(streams[k])
    requires exists k | 0 <= k < |streams| :: streams[k].entity == entity
    ensures i < |streams| && streams[i].events != []
    ensures streams[i].events[0].entity == entity && streams[i].events[0].sequence == SeqOf(streams, entity)
  {
    if streams[0].entity == entity {
      i := 0;
    } else {
      assert forall k | 0 < k < |streams| :: streams[k] == streams[1..][k - 1];
      var j := SeqOfIsWritten(streams[1..], entity);
      i := j + 1;
    }
  }

  /** A view's first sequence on a stream is that of an event of its commit. */
  lemma {:induction false} SeqOfLiveView(c: Commit, entity: string) returns (f: Event)
    requires WritesTo(LiveView(c), entity)
    ensures f in c.events && f.entity == entity && f.sequence == SeqOf(LiveView(c).streams, entity)
  {
    var view := LiveView(c);
    ViewHoldsGroup(c.events, map[]);
    var i := SeqOfIsWritten(view.streams, entity);
    var e := view.streams[i].events[0];
    StreamEventsMember(view.streams, i, e);
    assert e in multiset(ViewEvents(view));
    StoredMember(c.events, e);
    f :| f in c.events && e == Stored(f);
  }

  lemma {:induction false} LiveViewsAscend(h: seq<Commit>, i: nat, j: nat, entity: string)
    requires LiveHistory(h) && i < j < |h|
    requires WritesTo(LiveView(h[i]), entity) && WritesTo(LiveView(h[j]), entity)
    ensures SeqOf(LiveView(h[i]).streams, entity) < SeqOf(LiveView(h[j]).streams, entity)
  {
    var e := SeqOfLiveView(h[i], entity);
    var f := SeqOfLiveView(h[j], entity);
    LaterCommitsWriteLater(h, i, j, e, f);
  }

  /** The commit behind each view of a complete order. */
  lemma {:induction false} ViewIsLive(h: seq<Commit>, log: seq<Event>, order: seq<nat>, k: nat) returns (x: nat, i: nat)
    requires LogOf(h, log) && k < |order|
    requires IsOrder(Sort(log, EventKey), order)
    ensures var sorted := Sort(log, EventKey);
            && x < |sorted| && i < |h| && Members(sorted)[x] == order[k] && ID(sorted[x]) == h[i].id
            && ViewsOf(sorted, order)[k] == LiveView(h[i])
  {
    var sorted := Sort(log, EventKey);
    SortedLog(h, log);
    assert GreedyAt(GroupCount(sorted), CommitEdges(sorted), GroupKeys(sorted), order, k);
    MembersFollowCommits(sorted);
    assert order[k] in Members(sorted);
    x :| 0 <= x < |sorted| && Members(sorted)[x] == order[k];
    var f: Event;
    i, f := LoggedEvent(h, sorted, sorted[x]);
    GroupViewIsLive(h, log, x, i);
  }

  /** Every commit appears among the views of a complete order. */
  lemma {:induction false} LiveIsView(h: seq<Commit>, log: seq<Event>, order: seq<nat>, i: nat) returns (k: nat)
    requires LogOf(h, log) && i < |h|
    requires IsOrder(Sort(log, EventKey), order) && |order| == GroupCount(Sort(log, EventKey))
    ensures k < |order| && ViewsOf(Sort(log, EventKey), order)[k] == LiveView(h[i])
  {
    var sorted := Sort(log, EventKey);
    SortedLog(h, log);
    assert LiveCommit(h, i);
    var f := h[i].events[0];
    EventIsLogged(h, sorted, i, f);
    var x :| 0 <= x < |sorted| && sorted[x] == Stored(f);
    CompleteOrderCovers(sorted, order);
    k := IndexIn(order, Members(sorted)[x]);
    GroupViewIsLive(h, log, x, i);
  }

  /** An event of the commit behind view `k`, on a stream the view wrote. */
  lemma {:induction false} EventOfView(
    h: seq<Commit>, sorted: seq<Event>, order: seq<nat>, k: nat, x: nat, i: nat, entity: string) returns (y: nat)
    requires LogOf(h, sorted) && k < |order| && x < |sorted| && i < |h|
    requires Members(sorted)[x] == order[k] && ID(sorted[x]) == h[i].id
    requires WritesTo(LiveView(h[i]), entity)
    ensures y < |sorted| && sorted[y].entity == entity && ID(sorted[y]) == h[i].id && Members(sorted)[y] == order[k]
  {
    var f := SeqOfLiveView(h[i], entity);
    EventIsLogged(h, sorted, i, f);
    assert LiveCommit(h, i);
    y :| 0 <= y < |sorted| && sorted[y] == Stored(f);
    MembersFollowCommits(sorted);
    assert SameCommit(sorted, x, y);
  }

  lemma {:induction false} ViewsAscend(h: seq<Commit>, log: seq<Event>, order: seq<nat>, a: nat, b: nat, entity: string)
    requires LogOf(h, log) && a < b < |order|
    requires IsOrder(Sort(log, EventKey), order) && |order| == GroupCount(Sort(log, EventKey))
    requires var views := ViewsOf(Sort(log, EventKey), order); WritesTo(views[a], entity) && WritesTo(views[b], entity)
    ensures var views := ViewsOf(Sort(log, EventKey), order);
            SeqOf(views[a].streams, entity) < SeqOf(views[b].streams, entity)
  {
    var sorted := Sort(log, EventKey);
    SortedLog(h, log);
    CompleteOrderCovers(sorted, order);
    var x, i := ViewIsLive(h, log, order, a);
    var y, j := ViewIsLive(h, log, order, b);
    var u := EventOfView(h, sorted, order, a, x, i, entity);
    var v := EventOfView(h, sorted, order, b, y, j, entity);
    CommitsAscend(h, sorted, order, a, b, u, v, i, j);
    LiveViewsAscend(h, i, j, entity);
  }

  lemma {:induction false} CommitsAscend(
    h: seq<Commit>, sorted: seq<Event>, order: seq<nat>, a: nat, b: nat, u: nat, v: nat, i: nat, j: nat)
    requires LogOf(h, sorted) && Sorted(sorted, EventKey) && DistinctKeys(sorted, EventKey)
    requires IsOrder(sorted, order) && |order| == GroupCount(sorted) && a < b < |order| && order[a] != order[b]
    requires u < |sorted| && v < |sorted| && sorted[u].entity == sorted[v].entity
    requires Members(sorted)[u] == order[a] && Members(sorted)[v] == order[b]
    requires i < |h| && j < |h| && ID(sorted[u]) == h[i].id && ID(sorted[v]) == h[j].id
    ensures i < j
  {
    OtherGroupOtherID(h, sorted, u, v);
    if j < i {
      EventOrderIsCommitOrder(h, sorted, v, u, j, i);
      LaterInOrder(sorted, order, a, b, v, u);
    }
  }

  lemma {:induction false} OtherGroupOtherID(h: seq<Commit>, sorted: seq<Event>, u: nat, v: nat)
    requires LogOf(h, sorted) && u < |sorted| && v < |sorted| && Members(sorted)[u] != Members(sorted)[v]
    ensures ID(sorted[u]) != ID(sorted[v])
  {
    LoggedHasID(h, sorted, u);
    MembersFollowCommits(sorted);
    assert !SameCommit(sorted, u, v);
  }

  lemma {:induction false} LaterInOrder(sorted: seq<Event>, order: seq<nat>, a: nat, b: nat, v: nat, u: nat)
    requires Sorted(sorted, EventKey) && IsOrder(sorted, order) && |order| == GroupCount(sorted)
    requires v < u < |sorted| && sorted[u].entity == sorted[v].entity
    requires a < |order| && b < |order| && Members(sorted)[u] == order[a] && Members(sorted)[v] == order[b]
    ensures b <= a
  {
    CompleteOrderCovers(sorted, order);
    StreamsAgree(sorted, order, v, u);
  }

  /** Selecting from a sequence whose chosen elements ascend gives an ordered listing. */
  lemma {:induction false} FilterAscends<T>(p: T -> bool, xs: seq<T>, key: T -> Key)
    requires forall a, b | 0 <= a < b < |xs| && p(xs[a]) && p(xs[b]) ::
               KeyLeq(key(xs[a]), key(xs[b])) && key(xs[a]) != key(xs[b])
    ensures Sorted(Filter(p, xs), key) && DistinctKeys(Filter(p, xs), key)
  {
    if xs != [] {
      var last := |xs| - 1;
      var front := xs[..last];
      FilterAscends(p, front, key);
      var chosen := Filter(p, front);
      forall i | 0 <= i < |chosen| && p(xs[last])
        ensures KeyLeq(key(chosen[i]), key(xs[last])) && key(chosen[i]) != key(xs[last])
      {
        FilterMember(p, front, chosen[i]);
        var a :| 0 <= a < last && front[a] == chosen[i];
      }
    }
  }

  function LiveViews(h: seq<Commit>): seq<CommitView>
  {
    Map(LiveView, h)
  }

  lemma {:induction false} LiveWritersAscend(h: seq<Commit>, entity: string)
    requires LiveHistory(h)
    ensures var w := Writers(LiveViews(h), entity);
            Sorted(w, SeqKey(entity)) && DistinctKeys(w, SeqKey(entity))
  {
    var views := LiveViews(h);
    forall a, b | 0 <= a < b < |views| && WritesTo(views[a], entity) && WritesTo(views[b], entity)
      ensures KeyLeq(SeqKey(entity)(views[a]), SeqKey(entity)(views[b]))
              && SeqKey(entity)(views[a]) != SeqKey(entity)(views[b])
    {
      LiveViewsAscend(h, a, b, entity);
    }
    FilterAscends(c => WritesTo(c, entity), views, SeqKey(entity));
  }

  lemma {:induction false} RegroupedWritersAscend(h: seq<Commit>, log: seq<Event>, order: seq<nat>, entity: string)
    requires LogOf(h, log) && IsOrder(Sort(log, EventKey), order) && |order| == GroupCount(Sort(log, EventKey))
    ensures var w := Writers(ViewsOf(Sort(log, EventKey), order), entity);
            Sorted(w, SeqKey(entity)) && DistinctKeys(w, SeqKey(entity))
  {
    var views := ViewsOf(Sort(log, EventKey), order);
    forall a, b | 0 <= a < b < |views| && WritesTo(views[a], entity) && WritesTo(views[b], entity)
      ensures KeyLeq(SeqKey(entity)(views[a]), SeqKey(entity)(views[b]))
              && SeqKey(entity)(views[a]) != SeqKey(entity)(views[b])
    {
      ViewsAscend(h, log, order, a, b, entity);
    }
    FilterAscends(c => WritesTo(c, entity), views, SeqKey(entity));
  }

  lemma {:induction false} SameViews(h: seq<Commit>, log: seq<Event>, order: seq<nat>, v: CommitView)
    requires LogOf(h, log) && IsOrder(Sort(log, EventKey), order) && |order| == GroupCount(Sort(log, EventKey))
    ensures v in ViewsOf(Sort(log, EventKey), order) <==> v in LiveViews(h)
  {
    var views, live := ViewsOf(Sort(log, EventKey), order), LiveViews(h);
    if v in views {
      var k :| 0 <= k < |views| && views[k] == v;
      var x, i := ViewIsLive(h, log, order, k);
      assert live[i] == v;
    }
    if v in live {
      var i :| 0 <= i < |live| && live[i] == v;
      var k := LiveIsView(h, log, order, i);
      assert views[k] == v;
    }
  }

  /** Regrouping the log gives the live views, in an order every stream agrees with. */
  lemma {:induction false} RegroupedAgreesWithLive(h: seq<Commit>, log: seq<Event>, order: seq<nat>)
    requires LogOf(h, log) && IsOrder(Sort(log, EventKey), order) && |order| == GroupCount(Sort(log, EventKey))
    ensures SameStreams(ViewsOf(Sort(log, EventKey), order), LiveViews(h))
  {
    var views, live := ViewsOf(Sort(log, EventKey), order), LiveViews(h);
    forall entity ensures Writers(views, entity) == Writers(live, entity) {
      RegroupedWritersAscend(h, log, order, entity);
      LiveWritersAscend(h, entity);
      forall v ensures v in Writers(views, entity) <==> v in Writers(live, entity) {
        WritersMember(views, entity, v);
        WritersMember(live, entity, v);
        SameViews(h, log, order, v);
      }
      ListingUnique(Writers(views, entity), Writers(live, entity), SeqKey(entity));
    }
  }

  // ----- States

  /** The events a view wrote to a stream. */
  function EventsIn(v: CommitView, entity: string): seq<Event>
  {
    FlatMap((s: CommitStream) => if s.entity == entity then s.events else [], v.streams)
  }

  /** Folds a stream's events into its state, from no state at all. */
  function Fold(apply: (string, Event) -> string, events: seq<Event>): string
  {
    if events == [] then "" else apply(Fold(apply, events[..|events| - 1]), events[|events| - 1])
  }

  /** A stream's state after the given commits. */
  function StateAfter(apply: (string, Event) -> string, commits: seq<CommitView>, entity: string): string
  {
    Fold(apply, FlatMap((v: CommitView) => EventsIn(v, entity), commits))
  }

  /** The view with each stream's state after the given commits, the last of which it is. */
  function Stated(apply: (string, Event) -> string, commits: seq<CommitView>, v: CommitView): CommitView
  {
    v.(streams := Map((s: CommitStream) => s.(state := Some(StateAfter(apply, commits, s.entity))), v.streams))
  }

  /** The commits with every stream's state after each commit. */
  function WithStates(apply: (string, Event) -> string, commits: seq<CommitView>): seq<CommitView>
  {
    seq(|commits|, i requires 0 <= i < |commits| => Stated(apply, commits[..i + 1], commits[i]))
  }

  lemma {:induction false} NonWriterHasNoEvents(v: CommitView, entity: string)
    requires !WritesTo(v, entity)
    ensures EventsIn(v, entity) == []
  {
    NoMatches(v.streams, entity);
  }

  lemma {:induction false} NoMatches(streams: seq<CommitStream>, entity: string)
    requires forall i | 0 <= i < |streams| :: streams[i].entity != entity
    ensures FlatMap((s: CommitStream) => if s.entity == entity then s.events else [], streams) == []
  {
    if streams != [] { NoMatches(streams[..|streams| - 1], entity); }
  }

  /** A state depends only on the stream's writers. */
  lemma {:induction false} StateFromWriters(apply: (string, Event) -> string, commits: seq<CommitView>, entity: string)
    ensures StateAfter(apply, commits, entity) == StateAfter(apply, Writers(commits, entity), entity)
  {
    FlatMapSkips((v: CommitView) => EventsIn(v, entity), c => WritesTo(c, entity), commits, entity);
  }

  lemma {:induction false} FlatMapSkips(
    f: CommitView -> seq<Event>, q: CommitView -> bool, xs: seq<CommitView>, entity: string)
    requires forall v :: f(v) == EventsIn(v, entity) && (q(v) <==> WritesTo(v, entity))
    ensures FlatMap(f, xs) == FlatMap(f, Filter(q, xs))
  {
    if xs != [] {
      var front, x := xs[..|xs| - 1], xs[|xs| - 1];
      FlatMapSkips(f, q, front, entity);
      if q(x) {
        FlatMapSnoc(f, Filter(q, front), x);
      } else {
        NonWriterHasNoEvents(x, entity);
        assert f(x) == [] && Filter(q, xs) == Filter(q, front);
      }
    }
  }

  /** The writers of a stream up to and including one of them. */
  lemma {:induction false} WritersUpTo(p: seq<CommitView>, i: nat, entity: string)
    requires i < |p| && WritesTo(p[i], entity)
    ensures var w := Writers(p[..i + 1], entity);
            w != [] && w[|w| - 1] == p[i] && w <= Writers(p, entity)
  {
    assert p[..i + 1] == p[..i] + [p[i]];
    FilterSnoc(c => WritesTo(c, entity), p[..i], p[i]);
    FilterPrefix(c => WritesTo(c, entity), p, i + 1);
  }

  /** A commit gets the same states in two orders every stream agrees with. */
  lemma {:induction false} StatesAgree(
    apply: (string, Event) -> string, p: seq<CommitView>, q: seq<CommitView>, i: nat, j: nat)
    requires SameStreams(p, q) && NoRepeats(p)
    requires i < |p| && j < |q| && p[i] == q[j]
    ensures Stated(apply, p[..i + 1], p[i]) == Stated(apply, q[..j + 1], q[j])
  {
    var v := p[i];
    forall k | 0 <= k < |v.streams|
      ensures StateAfter(apply, p[..i + 1], v.streams[k].entity) == StateAfter(apply, q[..j + 1], v.streams[k].entity)
    {
      var entity := v.streams[k].entity;
      assert WritesTo(v, entity);
      WritersUpTo(p, i, entity);
      WritersUpTo(q, j, entity);
      assert Writers(p, entity) == Writers(q, entity);
      FilterNoRepeats(c => WritesTo(c, entity), p);
      PrefixesEndingAlike(Writers(p, entity), Writers(p[..i + 1], entity), Writers(q[..j + 1], entity));
      StateFromWriters(apply, p[..i + 1], entity);
      StateFromWriters(apply, q[..j + 1], entity);
    }
    assert Stated(apply, p[..i + 1], v).streams == Stated(apply, q[..j + 1], v).streams;
  }

  /** The stated form of a commit within an order. */
  function StatedIn(apply: (string, Event) -> string, p: seq<CommitView>, v: CommitView): CommitView
  {
    var i := IndexIn(p, v);
    Stated(apply, if i < |p| then p[..i + 1] else p, v)
  }

  lemma {:induction false} WithStatesIsMap(apply: (string, Event) -> string, p: seq<CommitView>)
    requires NoRepeats(p)
    ensures WithStates(apply, p) == Map(v => StatedIn(apply, p, v), p)
  {}

  lemma {:induction false} StatedWriters(apply: (string, Event) -> string, p: seq<CommitView>, entity: string)
    requires NoRepeats(p)
    ensures Writers(WithStates(apply, p), entity) == Map(v => StatedIn(apply, p, v), Writers(p, entity))
  {
    WithStatesIsMap(apply, p);
    forall v | v in p ensures WritesTo(StatedIn(apply, p, v), entity) <==> WritesTo(v, entity) {
      var i := IndexIn(p, v);
    }
    FilterMap(c => WritesTo(c, entity), v => StatedIn(apply, p, v), p);
  }

  lemma {:induction false} StatedAlike(
    apply: (string, Event) -> string, p: seq<CommitView>, q: seq<CommitView>, c: CommitView)
    requires SameStreams(p, q) && NoRepeats(p) && c in p && c in q
    ensures StatedIn(apply, p, c) == StatedIn(apply, q, c)
  {
    var i, j := IndexIn(p, c), IndexIn(q, c);
    StatesAgreeOn(apply, p, q, i, j, c);
  }

  lemma {:induction false} StatesAgreeOn(
    apply: (string, Event) -> string, p: seq<CommitView>, q: seq<CommitView>, i: nat, j: nat, c: CommitView)
    requires SameStreams(p, q) && NoRepeats(p) && i < |p| && j < |q| && p[i] == c && q[j] == c
    ensures Stated(apply, p[..i + 1], c) == Stated(apply, q[..j + 1], c)
  {
    StatesAgree(apply, p, q, i, j);
  }

  lemma {:induction false} WriterOfBoth(p: seq<CommitView>, q: seq<CommitView>, entity: string, c: CommitView)
    requires SameStreams(p, q) && c in Writers(p, entity)
    ensures c in p && c in q
  {
    assert Writers(p, entity) == Writers(q, entity);
    WritersMember(p, entity, c);
    WritersMember(q, entity, c);
  }

  /** States do not disturb the agreement of two orders. */
  lemma {:induction false} StatesKeepAgreement(apply: (string, Event) -> string, p: seq<CommitView>, q: seq<CommitView>)
    requires SameStreams(p, q) && NoRepeats(p) && NoRepeats(q)
    ensures SameStreams(WithStates(apply, p), WithStates(apply, q))
  {
    forall entity ensures Writers(WithStates(apply, p), entity) == Writers(WithStates(apply, q), entity) {
      StatedWriters(apply, p, entity);
      StatedWriters(apply, q, entity);
      var w := Writers(p, entity);
      assert w == Writers(q, entity);
      forall k | 0 <= k < |w| ensures StatedIn(apply, p, w[k]) == StatedIn(apply, q, w[k]) {
        WriterOfBoth(p, q, entity, w[k]);
        StatedAlike(apply, p, q, w[k]);
      }
    }
  }

  lemma {:induction false} LiveViewCarriesID(h: seq<Commit>, i: nat)
    requires LiveHistory(h) && i < |h|
    ensures LiveView(h[i]).commitID == h[i].id
  {
    assert LiveCommit(h, i);
    var sorted := Sort(h[i].events, EventKey);
    SortKeeps(h[i].events, EventKey);
    assert |multiset(sorted)| == |multiset(h[i].events)|;
    assert sorted[0] in multiset(sorted);
  }

  lemma {:induction false} LiveViewsDiffer(h: seq<Commit>)
    requires LiveHistory(h)
    ensures NoRepeats(LiveViews(h))
  {
    forall i, j | 0 <= i < j < |h| ensures LiveViews(h)[i] != LiveViews(h)[j] {
      LiveViewCarriesID(h, i);
      LiveViewCarriesID(h, j);
    }
  }

  lemma {:induction false} RegroupedViewsDiffer(h: seq<Commit>, log: seq<Event>, order: seq<nat>)
    requires LogOf(h, log) && IsOrder(Sort(log, EventKey), order)
    ensures NoRepeats(ViewsOf(Sort(log, EventKey), order))
  {
    var sorted := Sort(log, EventKey);
    SortedLog(h, log);
    forall a, b | 0 <= a < b < |order| ensures ViewsOf(sorted, order)[a] != ViewsOf(sorted, order)[b] {
      var x, i := ViewIsLive(h, log, order, a);
      assert LiveCommit(h, i);
      LiveViewCarriesID(h, i);
      OneViewPerCommit(sorted, order, a, b);
    }
  }

  // ----- Live rows

  /** The conditions a commit's operations carry, against the rows before the commit. */
  predicate ConditionsHold(rows: Rows, items: seq<Projected>)
  {
    forall i | 0 <= i < |items| ::
      var k := KeyOf(items[i].op);
      && (items[i].op.condition.Absent? ==> k !in rows)
      && (items[i].op.condition.Present? ==> k in rows)
      && (k in rows ==> rows[k].entityID == items[i].op.owner)
  }

  /** The rows after committing the views in order, or None when a commit is refused. */
  function LiveRows(projectors: Projectors, commits: seq<CommitView>): Option<Rows>
  {
    if commits == [] then Some(map[])
    else
      match LiveRows(projectors, commits[..|commits| - 1])
      case None => None
      case Some(rows) =>
        match ProjectCommit(projectors, commits[|commits| - 1])
        case Err(_) => None
        case Ok(items) => if ConditionsHold(rows, items) then Some(ApplyOps(rows, items)) else None
  }

  lemma {:induction false} ApplyAppend(a: seq<Projected>, b: seq<Projected>)
    ensures ApplyOps(map[], a + b) == ApplyOps(ApplyOps(map[], a), b)
  {
    if b == [] {
      assert a + b == a;
    } else {
      var front := b[..|b| - 1];
      ApplyAppend(a, front);
      assert (a + b)[..|a + b| - 1] == a + front;
    }
  }

  /** Accepted commits leave exactly the rows their operations fold to. */
  lemma {:induction false} LiveRowsAreFolded(projectors: Projectors, commits: seq<CommitView>)
    requires LiveRows(projectors, commits).Some?
    ensures AllProject(projectors, commits)
    ensures LiveRows(projectors, commits).value == RowsOf(projectors, commits)
  {
    if commits != [] {
      var front, c := commits[..|commits| - 1], commits[|commits| - 1];
      LiveRowsAreFolded(projectors, front);
      assert commits == front + [c];
      ApplyAppend(Ops(projectors, front), OpsOfOne(projectors, c));
    }
  }

  /** What row `k` is after a commit: what the commit's operation on it left, or what it was. */
  predicate RowAfter(before: Rows, items: seq<Projected>, after: Rows, k: RowKey)
  {
    && (forall i | 0 <= i < |items| && (items[i].op.pk, items[i].op.sk) == k ::
          var op := items[i].op;
          if op.kind.Delete? then k !in after
          else k in after && after[k] == Row(op.pk, op.sk, op.owner, op.entityType, op.payload))
    && ((forall i | 0 <= i < |items| :: (items[i].op.pk, items[i].op.sk) != k) ==>
          (k in after <==> k in before) && (k in before ==> after[k] == before[k]))
  }

  lemma {:induction false} AppliedRow(before: Rows, items: seq<Projected>, k: RowKey)
    requires DistinctRows(items)
    ensures RowAfter(before, items, ApplyOps(before, items), k)
  {
    if items != [] {
      var last := |items| - 1;
      AppliedRow(before, items[..last], k);
      assert forall i | 0 <= i < last :: items[..last][i] == items[i] && KeyOf(items[i].op) != KeyOf(items[last].op);
    }
  }

  /** The store takes an operation: the row is there or not as it asks, and belongs to its owner. */
  predicate Takes(before: Rows, op: ViewOp)
  {
    match op.condition
    case Absent => (op.pk, op.sk) !in before
    case Present => (op.pk, op.sk) in before && before[(op.pk, op.sk)].entityID == op.owner
    case _ => (op.pk, op.sk) in before ==> before[(op.pk, op.sk)].entityID == op.owner
  }

  /**
    A commit is accepted exactly when its projection succeeds and every operation's row is as
    the operation asks, and it then changes exactly the rows of its operations.
   */
  lemma {:induction false} CommitWritesRows(projectors: Projectors, commits: seq<CommitView>, c: CommitView)
    requires LiveRows(projectors, commits).Some?
    ensures var before, after := LiveRows(projectors, commits).value, LiveRows(projectors, commits + [c]);
            match ProjectCommit(projectors, c)
            case Err(_) => after.None?
            case Ok(items) =>
              && (after.Some? <==> forall i | 0 <= i < |items| :: Takes(before, items[i].op))
              && (after.Some? ==> forall k :: RowAfter(before, items, after.value, k))
  {
    assert (commits + [c])[..|commits|] == commits;
    if ProjectCommit(projectors, c).Ok? {
      var before, items := LiveRows(projectors, commits).value, ProjectCommit(projectors, c).value;
      assert ConditionsHold(before, items) <==> forall i | 0 <= i < |items| :: Takes(before, items[i].op);
      ProjectionIsSound(projectors, c);
      forall k ensures RowAfter(before, items, ApplyOps(before, items), k) { AppliedRow(before, items, k); }
    }
  }

  /**
    The main result. Take commits that were accepted live, and their stored events in any
    order. Regrouping succeeds, and the replay succeeds exactly when no row changed owner; its
    rows are then the live rows.
   */
  lemma {:induction false} RebuildReproducesLiveRows(
      apply: (string, Event) -> string, projectors: Projectors,
      h: seq<Commit>, log: seq<Event>, order: seq<nat>, r: GroupResult)
    requires LogOf(h, log) && IsResult(Sort(log, EventKey), order, r)
    requires LiveRows(projectors, WithStates(apply, LiveViews(h))).Some?
    ensures r.Ordered? && AllProject(projectors, WithStates(apply, r.views))
    ensures var live := WithStates(apply, LiveViews(h));
            && (Replays(projectors, WithStates(apply, r.views)) <==> OneOwner(Ops(projectors, live)))
            && (OneOwner(Ops(projectors, live)) ==>
                  RowsOf(projectors, WithStates(apply, r.views)) == LiveRows(projectors, live).value)
  {
    RegroupingSucceeds(h, log, order, r);
    RegroupedAgreesWithLive(h, log, order);
    RegroupedViewsDiffer(h, log, order);
    LiveViewsDiffer(h);
    StatesKeepAgreement(apply, r.views, LiveViews(h));
    LiveRowsAreFolded(projectors, WithStates(apply, LiveViews(h)));
    AllProjectTransfers(projectors, WithStates(apply, LiveViews(h)), WithStates(apply, r.views));
    ReplayIsConfluent(projectors, WithStates(apply, r.views), WithStates(apply, LiveViews(h)));
  }

  lemma {:induction false} RegroupingSucceeds(h: seq<Commit>, log: seq<Event>, order: seq<nat>, r: GroupResult)
    requires LogOf(h, log) && IsResult(Sort(log, EventKey), order, r)
    ensures r.Ordered? && |order| == GroupCount(Sort(log, EventKey)) && r.views == ViewsOf(Sort(log, EventKey), order)
  {
    var sorted := Sort(log, EventKey);
    SerialLogIsOrdered(h, log);
    CommitEdgesWellFormed(sorted);
    CompleteIffAcyclic(GroupCount(sorted), CommitEdges(sorted), GroupKeys(sorted), order);
  }

  /** A whole rebuild of a live log. */
  method RebuildRows(apply: (string, Event) -> string, projectors: Projectors, log: seq<Event>, ghost h: seq<Commit>)
    returns (r: Result<seq<Row>, ReplayError>)
    requires LogOf(h, log) && LiveRows(projectors, WithStates(apply, LiveViews(h))).Some?
    ensures r.Ok? <==> OneOwner(Ops(projectors, WithStates(apply, LiveViews(h))))
    ensures r.Ok? ==> IsListing(r.value, LiveRows(projectors, WithStates(apply, LiveViews(h))).value)
    ensures r.Err? ==> r.error.SharedViewKey?
  {
    ghost var order;
    var grouped;
    grouped, order := GroupCommits(log);
    RebuildReproducesLiveRows(apply, projectors, h, log, order, grouped);
    r := ReplayViews(projectors, WithStates(apply, grouped.views));
  }
}
