/**
  Regrouping stored events into the commits that wrote them.

  Events sharing a commit ID form one commit; an event without one is a commit of its own.
  Each stream orders the commits that wrote it, and GroupCommits returns the commits in an
  order every stream agrees with, or reports that there is none.
 */
module CommitLog {
  import opened Basics
  import opened Order
  import Sequences
  import opened Topology

  datatype Metadata = Metadata(
    commitID: string, commandID: Option<string>, causationID: Option<string>,
    extensions: Option<map<string, string>>)

  datatype Event = Event(
    id: string, entity: string, entityType: string, sequence: int, payload: string, metadata: Metadata)

  /** The metadata a stored event has. */
  function Defaults(m: Metadata): Metadata
  {
    m.(causationID := if m.causationID.None? then m.commandID else m.causationID,
       extensions := if m.extensions.None? then Some(map[]) else m.extensions)
  }

  function Stored(e: Event): Event
  {
    e.(metadata := Defaults(e.metadata))
  }

  /** A stored event is the event with its causation and extensions filled in where they were not given. */
  lemma {:induction false} StoredExactly(e: Event)
    ensures var m, n := e.metadata, Stored(e).metadata;
            && Stored(e) == e.(metadata := n) && n.commitID == m.commitID && n.commandID == m.commandID
            && (m.causationID.Some? ==> n.causationID == m.causationID)
            && (m.causationID.None? ==> n.causationID == m.commandID)
            && (m.extensions.Some? ==> n.extensions == m.extensions)
            && (m.extensions.None? ==> n.extensions == Some(map[]))
    ensures Stored(Stored(e)) == Stored(e)
  {}

  function EventKey(e: Event): Key
  {
    (e.entity, "", e.sequence)
  }

  function ID(e: Event): string { e.metadata.commitID }

  function StoredAll(events: seq<Event>): seq<Event>
  {
    seq(|events|, i requires 0 <= i < |events| => Stored(events[i]))
  }

  // ----- Commit views

  datatype CommitStream = CommitStream(entity: string, entityType: string, events: seq<Event>, state: Option<string>)

  datatype CommitView = CommitView(commitID: string, streams: seq<CommitStream>)

  function AddEvent(streams: seq<CommitStream>, e: Event, states: map<string, string>): seq<CommitStream>
  {
    var last := |streams| - 1;
    if streams != [] && streams[last].entity == e.entity then
      streams[last := streams[last].(events := streams[last].events + [e])]
    else
      streams + [CommitStream(e.entity, e.entityType, [e], if e.entity in states then Some(states[e.entity]) else None)]
  }

  function Streams(sorted: seq<Event>, states: map<string, string>): seq<CommitStream>
  {
    if sorted == [] then []
    else AddEvent(Streams(sorted[..|sorted| - 1], states), Stored(sorted[|sorted| - 1]), states)
  }

  function NewCommitView(events: seq<Event>, states: map<string, string>): CommitView
  {
    var sorted := Sort(events, EventKey);
    CommitView(if sorted == [] then "" else ID(sorted[0]), Streams(sorted, states))
  }

  function StreamEvents(streams: seq<CommitStream>): seq<Event>
  {
    if streams == [] then [] else StreamEvents(streams[..|streams| - 1]) + streams[|streams| - 1].events
  }

  function ViewEvents(view: CommitView): seq<Event> { StreamEvents(view.streams) }

  /** Streams strictly ascend by entity, and each holds its own events only. */
  predicate WellFormedStreams(streams: seq<CommitStream>)
  {
    && (forall i, j | 0 <= i < j < |streams| :: StrLess(streams[i].entity, streams[j].entity))
    && (forall i | 0 <= i < |streams| :: OwnEvents(streams[i]))
  }

  predicate OwnEvents(s: CommitStream)
  {
    s.events != [] && forall e | e in s.events :: e.entity == s.entity
  }

  /** Splitting sorted events into streams loses nothing and keeps their order. */
  lemma {:induction false} StreamsSplit(sorted: seq<Event>, states: map<string, string>)
    requires Sorted(sorted, EventKey)
    ensures StreamEvents(Streams(sorted, states)) == StoredAll(sorted)
    ensures WellFormedStreams(Streams(sorted, states))
    ensures var streams := Streams(sorted, states);
            if sorted == [] then streams == []
            else streams != [] && streams[|streams| - 1].entity == sorted[|sorted| - 1].entity
  {
    if sorted != [] {
      var front, e := sorted[..|sorted| - 1], sorted[|sorted| - 1];
      StreamsSplit(front, states);
      assert StoredAll(sorted) == StoredAll(front) + [Stored(e)];
      var before := Streams(front, states);
      if front != [] {
        assert KeyLeq(EventKey(front[|front| - 1]), EventKey(e));
      }
      AddEventKeeps(before, Stored(e), states);
    }
  }

  predicate MayFollow(streams: seq<CommitStream>, entity: string)
  {
    streams != [] ==> streams[|streams| - 1].entity == entity || StrLess(streams[|streams| - 1].entity, entity)
  }

  lemma {:induction false} AddEventKeeps(streams: seq<CommitStream>, e: Event, states: map<string, string>)
    requires WellFormedStreams(streams) && MayFollow(streams, e.entity)
    ensures WellFormedStreams(AddEvent(streams, e, states))
    ensures StreamEvents(AddEvent(streams, e, states)) == StreamEvents(streams) + [e]
  {
    var last := |streams| - 1;
    if streams == [] || streams[last].entity != e.entity {
      var state := if e.entity in states then Some(states[e.entity]) else None;
      AddStream(streams, CommitStream(e.entity, e.entityType, [e], state));
    }
  }

  lemma {:induction false} AddStream(streams: seq<CommitStream>, s: CommitStream)
    requires WellFormedStreams(streams) && MayFollow(streams, s.entity)
    requires streams != [] ==> streams[|streams| - 1].entity != s.entity
    requires OwnEvents(s)
    ensures WellFormedStreams(streams + [s]) && StreamEvents(streams + [s]) == StreamEvents(streams) + s.events
  {
    var last := |streams| - 1;
    assert (streams + [s])[..|streams|] == streams;
    forall i | 0 <= i < |streams| ensures StrLess(streams[i].entity, s.entity) {
      if i < last { StrLessTransitive(streams[i].entity, streams[last].entity, s.entity); }
    }
  }

  // ----- Grouping by commit ID

  predicate HasID(events: seq<Event>, id: string)
  {
    exists i | 0 <= i < |events| :: ID(events[i]) == id
  }

  function FirstWith(events: seq<Event>, id: string): (k: nat)
    requires HasID(events, id)
    ensures k < |events| && ID(events[k]) == id
    ensures forall i | 0 <= i < k :: ID(events[i]) != id
  {
    if ID(events[0]) == id then 0
    else
      assert HasID(events[1..], id) by {
        var i :| 0 <= i < |events| && ID(events[i]) == id;
        assert events[1..][i - 1] == events[i];
      }
      1 + FirstWith(events[1..], id)
  }

  predicate Joins(front: seq<Event>, e: Event)
  {
    ID(e) != "" && HasID(front, ID(e))
  }

  /** How many commits the events belong to. */
  function GroupCount(sorted: seq<Event>): nat
  {
    if sorted == [] then 0
    else
      var front, e := sorted[..|sorted| - 1], sorted[|sorted| - 1];
      GroupCount(front) + if Joins(front, e) then 0 else 1
  }

  /** The commit each event belongs to, numbered by first occurrence. */
  function Members(sorted: seq<Event>): (m: seq<nat>)
    ensures |m| == |sorted|
  {
    if sorted == [] then []
    else
      var front, e := sorted[..|sorted| - 1], sorted[|sorted| - 1];
      Members(front) + [if Joins(front, e) then Members(front)[FirstWith(front, ID(e))] else GroupCount(front)]
  }

  predicate SameCommit(sorted: seq<Event>, i: nat, j: nat)
    requires i < |sorted| && j < |sorted|
  {
    i == j || (ID(sorted[i]) == ID(sorted[j]) && ID(sorted[i]) != "")
  }

  /** Two events share a number exactly when they share a commit; every number is used. */
  lemma {:induction false} MembersFollowCommits(sorted: seq<Event>)
    ensures forall i | 0 <= i < |sorted| :: Members(sorted)[i] < GroupCount(sorted)
    ensures forall i, j | 0 <= i < |sorted| && 0 <= j < |sorted| ::
              Members(sorted)[i] == Members(sorted)[j] <==> SameCommit(sorted, i, j)
    ensures forall g: nat | g < GroupCount(sorted) :: g in Members(sorted)
  {
    if sorted != [] {
      var last := |sorted| - 1;
      var front, e := sorted[..last], sorted[last];
      MembersFollowCommits(front);
      var m, before := Members(sorted), Members(front);
      assert m[..last] == before;
      forall i | 0 <= i < last ensures m[i] == m[last] <==> SameCommit(sorted, i, last) {
        if Joins(front, e) {
          var k := FirstWith(front, ID(e));
          assert before[i] == before[k] <==> SameCommit(front, i, k);
        } else if ID(e) != "" {
          assert ID(front[i]) != ID(e);
        }
      }
      forall i, j | 0 <= i < |sorted| && 0 <= j < |sorted|
        ensures m[i] == m[j] <==> SameCommit(sorted, i, j)
      {
        if i < last && j < last { assert before[i] == before[j] <==> SameCommit(front, i, j); }
      }
      forall g: nat | g < GroupCount(sorted) ensures g in m {
        if g < GroupCount(front) { assert g in before; } else { assert m[last] == g; }
      }
    }
  }

  /** The events of commit `g`, in order. */
  function Pick(sorted: seq<Event>, members: seq<nat>, g: nat): seq<Event>
    requires |members| == |sorted|
  {
    if sorted == [] then []
    else
      var last := |sorted| - 1;
      Pick(sorted[..last], members[..last], g) + if members[last] == g then [sorted[last]] else []
  }

  function Group(sorted: seq<Event>, g: nat): seq<Event>
  {
    Pick(sorted, Members(sorted), g)
  }

  lemma {:induction false} PickMember(sorted: seq<Event>, members: seq<nat>, g: nat, i: nat)
    requires |members| == |sorted| && i < |sorted| && members[i] == g
    ensures sorted[i] in Pick(sorted, members, g)
  {
    var last := |sorted| - 1;
    if i < last { PickMember(sorted[..last], members[..last], g, i); }
  }

  lemma {:induction false} PickFrom(sorted: seq<Event>, members: seq<nat>, g: nat, e: Event)
    requires |members| == |sorted| && e in Pick(sorted, members, g)
    ensures exists i | 0 <= i < |sorted| :: sorted[i] == e && members[i] == g
  {
    var last := |sorted| - 1;
    if members[last] == g && sorted[last] == e {
    } else {
      PickFrom(sorted[..last], members[..last], g, e);
      var i :| 0 <= i < last && sorted[..last][i] == e && members[..last][i] == g;
    }
  }

  lemma {:induction false} GroupNonEmpty(sorted: seq<Event>, g: nat)
    requires g < GroupCount(sorted)
    ensures Group(sorted, g) != []
  {
    MembersFollowCommits(sorted);
    assert g in Members(sorted);
    var i :| 0 <= i < |sorted| && Members(sorted)[i] == g;
    PickMember(sorted, Members(sorted), g, i);
  }

  // ----- The order each stream gives its commits

  function EdgesOf(sorted: seq<Event>, members: seq<nat>): seq<Edge>
    requires |members| == |sorted|
  {
    if |sorted| < 2 then []
    else
      var last := |sorted| - 1;
      EdgesOf(sorted[..last], members[..last]) +
      if sorted[last - 1].entity == sorted[last].entity && members[last - 1] != members[last]
      then [(members[last - 1], members[last])] else []
  }

  lemma {:induction false} EdgesAreSteps(sorted: seq<Event>, members: seq<nat>, e: Edge)
    requires |members| == |sorted|
    ensures e in EdgesOf(sorted, members) <==>
            exists i | 1 <= i < |sorted| ::
              && sorted[i - 1].entity == sorted[i].entity
              && members[i - 1] == e.0 && members[i] == e.1 && e.0 != e.1
  {
    if |sorted| >= 2 {
      var last := |sorted| - 1;
      EdgesAreSteps(sorted[..last], members[..last], e);
    }
  }

  function CommitEdges(sorted: seq<Event>): (edges: seq<Edge>)
  {
    EdgesOf(sorted, Members(sorted))
  }

  lemma {:induction false} CommitEdgesWellFormed(sorted: seq<Event>)
    ensures WellFormed(GroupCount(sorted), CommitEdges(sorted))
  {
    MembersFollowCommits(sorted);
    forall e | e in CommitEdges(sorted)
      ensures e.0 < GroupCount(sorted) && e.1 < GroupCount(sorted) && e.0 != e.1
    {
      EdgesAreSteps(sorted, Members(sorted), e);
    }
  }

  function GroupKeys(sorted: seq<Event>): (keys: seq<Key>)
    ensures |keys| == GroupCount(sorted)
  {
    seq(GroupCount(sorted),
        g requires 0 <= g < GroupCount(sorted) => (GroupNonEmpty(sorted, g); EventKey(Group(sorted, g)[0])))
  }

  /** The order a grouping of these events follows. */
  predicate IsOrder(sorted: seq<Event>, order: seq<nat>)
  {
    && Greedy(GroupCount(sorted), CommitEdges(sorted), GroupKeys(sorted), order)
    && Exhausted(GroupCount(sorted), CommitEdges(sorted), order)
  }

  function ViewsOf(sorted: seq<Event>, order: seq<nat>): seq<CommitView>
  {
    seq(|order|, k requires 0 <= k < |order| => NewCommitView(Group(sorted, order[k]), map[]))
  }

  /** A commit is written no later than the next commit of any stream, for every pair of events. */
  lemma {:induction false} StreamsAgree(sorted: seq<Event>, order: seq<nat>, i: nat, j: nat)
    requires Sorted(sorted, EventKey) && IsOrder(sorted, order) && |order| == GroupCount(sorted)
    requires i <= j < |sorted| && sorted[i].entity == sorted[j].entity
    ensures Members(sorted)[i] in order && Members(sorted)[j] in order
    ensures Sequences.IndexIn(order, Members(sorted)[i]) <= Sequences.IndexIn(order, Members(sorted)[j])
    decreases j
  {
    var n, edges, keys := GroupCount(sorted), CommitEdges(sorted), GroupKeys(sorted);
    var m := Members(sorted);
    GreedyDistinct(n, edges, keys, order);
    MembersFollowCommits(sorted);
    if i < j {
      assert sorted[j - 1].entity == sorted[j].entity by {
        assert KeyLeq(EventKey(sorted[i]), EventKey(sorted[j - 1]));
        assert KeyLeq(EventKey(sorted[j - 1]), EventKey(sorted[j]));
        if sorted[j - 1].entity != sorted[j].entity {
          StrLessAsymmetric(sorted[j - 1].entity, sorted[j].entity);
        }
      }
      StreamsAgree(sorted, order, i, j - 1);
      if m[j - 1] != m[j] {
        EdgesAreSteps(sorted, m, (m[j - 1], m[j]));
        EdgesPointForward(n, edges, keys, order, Sequences.IndexIn(order, m[j - 1]), Sequences.IndexIn(order, m[j]));
      }
    }
  }

  // ----- Conservation

  function PickAll(sorted: seq<Event>, members: seq<nat>, chosen: set<nat>): seq<Event>
    requires |members| == |sorted|
  {
    if sorted == [] then []
    else
      var last := |sorted| - 1;
      PickAll(sorted[..last], members[..last], chosen) + if members[last] in chosen then [sorted[last]] else []
  }

  lemma {:induction false} PickOneMore(sorted: seq<Event>, members: seq<nat>, chosen: set<nat>, g: nat)
    requires |members| == |sorted| && g !in chosen
    ensures multiset(PickAll(sorted, members, chosen + {g})) ==
            multiset(PickAll(sorted, members, chosen)) + multiset(Pick(sorted, members, g))
  {
    if sorted != [] {
      var last := |sorted| - 1;
      PickOneMore(sorted[..last], members[..last], chosen, g);
    }
  }

  lemma {:induction false} PickEverything(sorted: seq<Event>, members: seq<nat>, chosen: set<nat>)
    requires |members| == |sorted| && forall i | 0 <= i < |members| :: members[i] in chosen
    ensures PickAll(sorted, members, chosen) == sorted
  {
    if sorted != [] {
      var last := |sorted| - 1;
      PickEverything(sorted[..last], members[..last], chosen);
      assert sorted == sorted[..last] + [sorted[last]];
    }
  }

  function AllEvents(views: seq<CommitView>): seq<Event>
  {
    if views == [] then [] else AllEvents(views[..|views| - 1]) + ViewEvents(views[|views| - 1])
  }

  lemma {:induction false} ViewHoldsGroup(events: seq<Event>, states: map<string, string>)
    ensures ViewEvents(NewCommitView(events, states)) == StoredAll(Sort(events, EventKey))
    ensures WellFormedStreams(NewCommitView(events, states).streams)
    ensures multiset(ViewEvents(NewCommitView(events, states))) == multiset(StoredAll(events))
  {
    var sorted := Sort(events, EventKey);
    SortKeeps(events, EventKey);
    StreamsSplit(sorted, states);
    StoredMultiset(sorted, events);
  }

  lemma {:induction false} RemoveOne<T>(a: seq<T>, b: seq<T>, k: nat)
    requires a != [] && k < |b| && b[k] == a[0] && multiset(a) == multiset(b)
    ensures multiset(a[1..]) == multiset(b[..k] + b[k + 1..])
  {
    assert a == [a[0]] + a[1..];
    assert b == b[..k] + ([b[k]] + b[k + 1..]);
    assert multiset(a) == multiset{a[0]} + multiset(a[1..]);
    assert multiset(b) == multiset(b[..k]) + (multiset{b[k]} + multiset(b[k + 1..]));
    assert multiset(a[1..]) == multiset(a) - multiset{a[0]};
  }

  lemma {:induction false} StoredMultiset(a: seq<Event>, b: seq<Event>)
    requires multiset(a) == multiset(b)
    ensures multiset(StoredAll(a)) == multiset(StoredAll(b))
  {
    if a == [] {
      assert |b| == |multiset(b)| == 0;
    } else {
      var x := a[0];
      assert x in multiset(b);
      var k :| 0 <= k < |b| && b[k] == x;
      var rest := b[..k] + b[k + 1..];
      RemoveOne(a, b, k);
      StoredMultiset(a[1..], rest);
      assert StoredAll(a) == [Stored(x)] + StoredAll(a[1..]);
      assert StoredAll(b) == StoredAll(b[..k]) + [Stored(x)] + StoredAll(b[k + 1..]);
      assert StoredAll(rest) == StoredAll(b[..k]) + StoredAll(b[k + 1..]);
    }
  }

  lemma {:induction false} ElementsSnoc(order: seq<nat>, g: nat)
    ensures Elements(order + [g]) == Elements(order) + {g}
  {}

  lemma {:induction false} ViewsHoldStep(
    sorted: seq<Event>, m: seq<nat>, views: seq<CommitView>, view: CommitView, chosen: set<nat>, g: nat)
    requires |m| == |sorted| && g !in chosen
    requires multiset(AllEvents(views)) == multiset(StoredAll(PickAll(sorted, m, chosen)))
    requires multiset(ViewEvents(view)) == multiset(StoredAll(Pick(sorted, m, g)))
    ensures multiset(AllEvents(views + [view])) == multiset(StoredAll(PickAll(sorted, m, chosen + {g})))
  {
    ChosenSplit(sorted, m, chosen, g);
  }

  /** The view holds the stored form of one commit's events. */
  ghost predicate HoldsGroup(view: CommitView, sorted: seq<Event>, m: seq<nat>, g: nat)
    requires |m| == |sorted|
  {
    multiset(ViewEvents(view)) == multiset(StoredAll(Pick(sorted, m, g)))
  }

  lemma {:induction false} ViewsHoldChosen(sorted: seq<Event>, m: seq<nat>, views: seq<CommitView>, order: seq<nat>)
    requires |m| == |sorted| && |views| == |order|
    requires forall i, j | 0 <= i < j < |order| :: order[i] != order[j]
    requires forall k | 0 <= k < |order| :: HoldsGroup(views[k], sorted, m, order[k])
    ensures multiset(AllEvents(views)) == multiset(StoredAll(PickAll(sorted, m, Elements(order))))
  {
    if order == [] {
      PickNothing(sorted, m);
    } else {
      var last := |order| - 1;
      var o, v := order[..last], views[..last];
      assert order == o + [order[last]] && views == v + [views[last]];
      assert forall k | 0 <= k < last :: HoldsGroup(v[k], sorted, m, o[k]);
      ViewsHoldChosen(sorted, m, v, o);
      assert HoldsGroup(views[last], sorted, m, order[last]);
      ViewsHoldStep(sorted, m, v, views[last], Elements(o), order[last]);
      ElementsSnoc(o, order[last]);
    }
  }

  lemma {:induction false} ChosenSplit(sorted: seq<Event>, m: seq<nat>, chosen: set<nat>, g: nat)
    requires |m| == |sorted| && g !in chosen
    ensures multiset(StoredAll(PickAll(sorted, m, chosen + {g}))) ==
            multiset(StoredAll(PickAll(sorted, m, chosen))) + multiset(StoredAll(Pick(sorted, m, g)))
  {
    PickOneMore(sorted, m, chosen, g);
    StoredUnion(PickAll(sorted, m, chosen + {g}), PickAll(sorted, m, chosen), Pick(sorted, m, g));
  }

  lemma {:induction false} StoredUnion(all: seq<Event>, a: seq<Event>, b: seq<Event>)
    requires multiset(all) == multiset(a) + multiset(b)
    ensures multiset(StoredAll(all)) == multiset(StoredAll(a)) + multiset(StoredAll(b))
  {
    StoredMultiset(all, a + b);
    assert StoredAll(a + b) == StoredAll(a) + StoredAll(b);
  }

  lemma {:induction false} PickNothing(sorted: seq<Event>, members: seq<nat>)
    requires |members| == |sorted|
    ensures PickAll(sorted, members, Elements([])) == []
  {
    if sorted != [] {
      var last := |sorted| - 1;
      PickNothing(sorted[..last], members[..last]);
    }
  }

  lemma {:induction false} ViewsHoldGroups(sorted: seq<Event>, order: seq<nat>)
    requires forall i, j | 0 <= i < j < |order| :: order[i] != order[j]
    ensures multiset(AllEvents(ViewsOf(sorted, order))) ==
            multiset(StoredAll(PickAll(sorted, Members(sorted), Elements(order))))
  {
    var m, views := Members(sorted), ViewsOf(sorted, order);
    forall k | 0 <= k < |order|
      ensures HoldsGroup(views[k], sorted, m, order[k])
    {
      ViewHoldsGroup(Pick(sorted, m, order[k]), map[]);
    }
    ViewsHoldChosen(sorted, m, views, order);
  }

  /** A complete order names the commit of every event, once. */
  lemma {:induction false} CompleteOrderCovers(sorted: seq<Event>, order: seq<nat>)
    requires IsOrder(sorted, order) && |order| == GroupCount(sorted)
    ensures forall i, j | 0 <= i < j < |order| :: order[i] != order[j]
    ensures forall i | 0 <= i < |sorted| :: Members(sorted)[i] in Elements(order)
  {
    GreedyDistinct(GroupCount(sorted), CommitEdges(sorted), GroupKeys(sorted), order);
    MembersFollowCommits(sorted);
  }

  /** On success every event comes back exactly once, in its stored form. */
  lemma {:induction false} EventsConserved(events: seq<Event>, order: seq<nat>)
    requires var sorted := Sort(events, EventKey); IsOrder(sorted, order) && |order| == GroupCount(sorted)
    ensures multiset(AllEvents(ViewsOf(Sort(events, EventKey), order))) == multiset(StoredAll(events))
  {
    var sorted := Sort(events, EventKey);
    CompleteOrderCovers(sorted, order);
    ViewsHoldGroups(sorted, order);
    PickEverything(sorted, Members(sorted), Elements(order));
    SortKeeps(events, EventKey);
    StoredMultiset(sorted, events);
  }

  /** A view carries the commit ID of each of its events. */
  lemma {:induction false} ViewCarriesID(sorted: seq<Event>, g: nat, e: Event)
    requires Sorted(sorted, EventKey) && e in Group(sorted, g)
    ensures NewCommitView(Group(sorted, g), map[]).commitID == ID(e)
  {
    var group, m := Group(sorted, g), Members(sorted);
    SortKeeps(group, EventKey);
    var first := Sort(group, EventKey)[0];
    assert first in multiset(Sort(group, EventKey));
    assert first in group;
    PickFrom(sorted, m, g, first);
    PickFrom(sorted, m, g, e);
    MembersFollowCommits(sorted);
    var i :| 0 <= i < |sorted| && sorted[i] == first && m[i] == g;
    var j :| 0 <= j < |sorted| && sorted[j] == e && m[j] == g;
    assert SameCommit(sorted, i, j);
  }

  /** No two views share a commit ID. */
  lemma {:induction false} OneViewPerCommit(sorted: seq<Event>, order: seq<nat>, a: nat, b: nat)
    requires Sorted(sorted, EventKey) && IsOrder(sorted, order)
    requires a < b < |order|
    ensures ViewsOf(sorted, order)[a].commitID == ""
            || ViewsOf(sorted, order)[a].commitID != ViewsOf(sorted, order)[b].commitID
  {
    var n, m := GroupCount(sorted), Members(sorted);
    GreedyDistinct(n, CommitEdges(sorted), GroupKeys(sorted), order);
    assert GreedyAt(n, CommitEdges(sorted), GroupKeys(sorted), order, a);
    assert GreedyAt(n, CommitEdges(sorted), GroupKeys(sorted), order, b);
    MembersFollowCommits(sorted);
    assert order[a] in m && order[b] in m;
    var i :| 0 <= i < |sorted| && m[i] == order[a];
    var j :| 0 <= j < |sorted| && m[j] == order[b];
    PickMember(sorted, m, order[a], i);
    PickMember(sorted, m, order[b], j);
    ViewCarriesID(sorted, order[a], sorted[i]);
    ViewCarriesID(sorted, order[b], sorted[j]);
    assert !SameCommit(sorted, i, j);
  }
}
