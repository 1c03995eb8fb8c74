/**
  GroupCommits itself: the loops that build the groups, the edges and the drain, proved
  against the description of the grouping in CommitLog.
 */
module Grouping {
  import opened Order
  import opened Topology
  import opened CommitLog

  datatype GroupResult = Ordered(views: seq<CommitView>) | Unordered(commits: seq<string>)

  function StringKey(s: string): Key { (s, "", 0) }

  /** The commit ID of group `g`. */
  function HeadID(sorted: seq<Event>, g: nat): string
    requires g < GroupCount(sorted)
  {
    GroupNonEmpty(sorted, g);
    ID(Group(sorted, g)[0])
  }

  function HeadIDs(sorted: seq<Event>): (ids: seq<string>)
    ensures |ids| == GroupCount(sorted)
  {
    seq(GroupCount(sorted), g requires 0 <= g < GroupCount(sorted) => HeadID(sorted, g))
  }

  /** The IDs whose positions the order leaves out. */
  function LeftoverIDs(ids: seq<string>, order: seq<nat>): seq<string>
  {
    if ids == [] then []
    else
      var last := |ids| - 1;
      LeftoverIDs(ids[..last], order) + if last in order then [] else [ids[last]]
  }

  predicate Grouped(sorted: seq<Event>, members: seq<nat>, groups: seq<seq<Event>>)
  {
    && members == Members(sorted)
    && |groups| == GroupCount(sorted)
    && forall g | 0 <= g < |groups| :: groups[g] == Pick(sorted, members, g)
  }

  ghost predicate Indexed(sorted: seq<Event>, byID: map<string, nat>)
  {
    && (forall id :: id in byID <==> id != "" && HasID(sorted, id))
    && (forall id | id in byID :: byID[id] == Members(sorted)[FirstWith(sorted, id)])
  }

  lemma {:induction false} PickFresh(sorted: seq<Event>, members: seq<nat>, g: nat)
    requires |members| == |sorted| && forall i | 0 <= i < |members| :: members[i] != g
    ensures Pick(sorted, members, g) == []
  {
    if sorted != [] {
      PickFresh(sorted[..|sorted| - 1], members[..|sorted| - 1], g);
    }
  }

  lemma {:induction false} MembersSnoc(sorted: seq<Event>, e: Event)
    ensures Members(sorted + [e]) ==
            Members(sorted)
            + [if Joins(sorted, e) then Members(sorted)[FirstWith(sorted, ID(e))] else GroupCount(sorted)]
    ensures GroupCount(sorted + [e]) == GroupCount(sorted) + if Joins(sorted, e) then 0 else 1
  {}

  lemma {:induction false} HasIDSnoc(sorted: seq<Event>, e: Event, id: string)
    ensures HasID(sorted + [e], id) <==> HasID(sorted, id) || ID(e) == id
    ensures HasID(sorted, id) ==> FirstWith(sorted + [e], id) == FirstWith(sorted, id)
    ensures !HasID(sorted, id) && ID(e) == id ==> FirstWith(sorted + [e], id) == |sorted|
  {
    var longer := sorted + [e];
    assert longer[|sorted|] == e;
    assert forall i | 0 <= i < |sorted| :: longer[i] == sorted[i];
    if HasID(sorted, id) {
      var k := FirstWith(sorted, id);
      assert longer[k] == sorted[k];
      assert HasID(longer, id);
      var l := FirstWith(longer, id);
      assert !(l < k) && !(k < l);
    } else if ID(e) == id {
      var l := FirstWith(longer, id);
    }
  }

  lemma {:induction false} IndexJoin(sorted: seq<Event>, e: Event, byID: map<string, nat>)
    requires Indexed(sorted, byID) && (ID(e) == "" || Joins(sorted, e))
    ensures Indexed(sorted + [e], byID)
  {
    MembersSnoc(sorted, e);
    forall id ensures id in byID <==> id != "" && HasID(sorted + [e], id) { HasIDSnoc(sorted, e, id); }
    forall id | id in byID ensures byID[id] == Members(sorted + [e])[FirstWith(sorted + [e], id)] {
      HasIDSnoc(sorted, e, id);
    }
  }

  lemma {:induction false} IndexNew(sorted: seq<Event>, e: Event, byID: map<string, nat>)
    requires Indexed(sorted, byID) && ID(e) != "" && !Joins(sorted, e)
    ensures Indexed(sorted + [e], byID[ID(e) := GroupCount(sorted)])
  {
    MembersSnoc(sorted, e);
    var longer := byID[ID(e) := GroupCount(sorted)];
    forall id ensures id in longer <==> id != "" && HasID(sorted + [e], id) { HasIDSnoc(sorted, e, id); }
    forall id | id in longer ensures longer[id] == Members(sorted + [e])[FirstWith(sorted + [e], id)] {
      HasIDSnoc(sorted, e, id);
    }
  }

  /** One event joins group `m`, a new one when `m` is the group count. */
  lemma {:induction false} GroupedSnoc(sorted: seq<Event>, members: seq<nat>, groups: seq<seq<Event>>, e: Event, m: nat)
    requires Grouped(sorted, members, groups)
    requires m == if Joins(sorted, e) then members[FirstWith(sorted, ID(e))] else |groups|
    ensures m <= |groups| && (m < |groups| <==> Joins(sorted, e))
    ensures var wider := if m == |groups| then groups + [[]] else groups;
            Grouped(sorted + [e], members + [m], wider[m := wider[m] + [e]])
  {
    MembersSnoc(sorted, e);
    MembersFollowCommits(sorted);
    var wider := if m == |groups| then groups + [[]] else groups;
    PickFresh(sorted, members, |groups|);
    forall g | 0 <= g < |wider|
      ensures wider[m := wider[m] + [e]][g] == Pick(sorted + [e], members + [m], g)
    {
    }
  }

  method BuildGroups(sorted: seq<Event>) returns (groups: seq<seq<Event>>, members: seq<nat>)
    ensures Grouped(sorted, members, groups)
  {
    groups, members := [], [];
    var byID: map<string, nat> := map[];
    for i := 0 to |sorted|
      invariant Grouped(sorted[..i], members, groups)
      invariant Indexed(sorted[..i], byID)
    {
      var event := sorted[i];
      var id := ID(event);
      assert sorted[..i + 1] == sorted[..i] + [event];
      if id == "" {
        GroupedSnoc(sorted[..i], members, groups, event, |groups|);
        IndexJoin(sorted[..i], event, byID);
        members := members + [|groups|];
        groups := groups + [[event]];
      } else {
        var index := |groups|;
        if id in byID {
          index := byID[id];
          IndexJoin(sorted[..i], event, byID);
        } else {
          IndexNew(sorted[..i], event, byID);
          byID := byID[id := index];
        }
        GroupedSnoc(sorted[..i], members, groups, event, index);
        if index == |groups| {
          groups := groups + [[]];
        }
        members := members + [index];
        groups := groups[index := groups[index] + [event]];
      }
    }
    assert sorted[..|sorted|] == sorted;
  }

  // ----- Edges

  lemma {:induction false} TargetsSnoc(edges: seq<Edge>, e: Edge, p: nat)
    ensures Targets(edges + [e], p) == Targets(edges, p) + if e.0 == p then [e.1] else []
  {
    if edges != [] {
      TargetsSnoc(edges[1..], e, p);
      assert (edges + [e])[1..] == edges[1..] + [e];
    }
  }

  lemma {:induction false} PendingSnoc(edges: seq<Edge>, e: Edge, q: nat)
    ensures Pending(edges + [e], {}, q) == Pending(edges, {}, q) + if e.1 == q then 1 else 0
  {
    if edges != [] {
      PendingSnoc(edges[1..], e, q);
      assert (edges + [e])[1..] == edges[1..] + [e];
    }
  }

  predicate Wired(edges: seq<Edge>, successors: seq<seq<nat>>, waiting: seq<nat>)
  {
    && (forall p | 0 <= p < |successors| :: successors[p] == Targets(edges, p))
    && (forall q | 0 <= q < |waiting| :: waiting[q] == Pending(edges, {}, q))
  }

  lemma {:induction false} WiredSnoc(edges: seq<Edge>, successors: seq<seq<nat>>, waiting: seq<nat>, p: nat, q: nat)
    requires Wired(edges, successors, waiting) && p < |successors| && q < |waiting|
    ensures Wired(edges + [(p, q)], successors[p := successors[p] + [q]], waiting[q := waiting[q] + 1])
  {
    forall i | 0 <= i < |successors|
      ensures successors[p := successors[p] + [q]][i] == Targets(edges + [(p, q)], i)
    { TargetsSnoc(edges, (p, q), i); }
    forall i | 0 <= i < |waiting|
      ensures waiting[q := waiting[q] + 1][i] == Pending(edges + [(p, q)], {}, i)
    { PendingSnoc(edges, (p, q), i); }
  }

  lemma {:induction false} EdgesSnoc(sorted: seq<Event>, members: seq<nat>, i: nat)
    requires |members| == |sorted| && 1 <= i < |sorted|
    ensures EdgesOf(sorted[..i + 1], members[..i + 1]) == EdgesOf(sorted[..i], members[..i]) +
            if sorted[i - 1].entity == sorted[i].entity && members[i - 1] != members[i]
            then [(members[i - 1], members[i])] else []
  {
    assert sorted[..i + 1][..i] == sorted[..i] && members[..i + 1][..i] == members[..i];
  }

  method BuildEdges(sorted: seq<Event>, members: seq<nat>, n: nat)
    returns (successors: seq<seq<nat>>, waiting: seq<nat>)
    requires |members| == |sorted| && forall i | 0 <= i < |members| :: members[i] < n
    ensures |successors| == |waiting| == n && Wired(EdgesOf(sorted, members), successors, waiting)
  {
    successors, waiting := seq(n, _ => []), seq(n, _ => 0);
    if |sorted| == 0 { return; }
    ghost var edges: seq<Edge> := [];
    for i := 1 to |sorted|
      invariant |successors| == |waiting| == n
      invariant edges == EdgesOf(sorted[..i], members[..i])
      invariant Wired(edges, successors, waiting)
    {
      EdgesSnoc(sorted, members, i);
      var previous, current := members[i - 1], members[i];
      if sorted[i - 1].entity == sorted[i].entity && previous != current {
        WiredSnoc(edges, successors, waiting, previous, current);
        edges := edges + [(previous, current)];
        successors := successors[previous := successors[previous] + [current]];
        waiting := waiting[current := waiting[current] + 1];
      }
    }
    assert sorted[..|sorted|] == sorted && members[..|sorted|] == members;
  }

  // ----- The whole

  /** What GroupCommits returns for these events, along `order`. */
  predicate IsResult(sorted: seq<Event>, order: seq<nat>, r: GroupResult)
  {
    && IsOrder(sorted, order)
    && r == if |order| == GroupCount(sorted) then Ordered(ViewsOf(sorted, order))
            else Unordered(Sort(LeftoverIDs(HeadIDs(sorted), order), StringKey))
  }

  method GroupCommits(events: seq<Event>) returns (r: GroupResult, ghost order: seq<nat>)
    ensures IsResult(Sort(events, EventKey), order, r)
    ensures r.Ordered? <==> Acyclic(CommitEdges(Sort(events, EventKey)))
  {
    var sorted := Sort(events, EventKey);
    var groups, popped, left := OrderGroups(sorted);
    order := popped;
    CommitEdgesWellFormed(sorted);
    CompleteIffAcyclic(GroupCount(sorted), CommitEdges(sorted), GroupKeys(sorted), order);
    GreedyDistinct(GroupCount(sorted), CommitEdges(sorted), GroupKeys(sorted), order);
    if |popped| < |groups| {
      var stuck := Unfinished(sorted, groups, left, order);
      r := Unordered(Sort(stuck, StringKey));
    } else {
      var views := MakeViews(sorted, groups, popped);
      r := Ordered(views);
    }
  }

  /** Groups the events and drains the ready commits. */
  method OrderGroups(sorted: seq<Event>)
    returns (groups: seq<seq<Event>>, order: seq<nat>, waiting: seq<nat>)
    ensures |groups| == |waiting| == GroupCount(sorted) && IsOrder(sorted, order)
    ensures forall g: nat | g < |groups| :: groups[g] == Group(sorted, g)
    ensures forall q | 0 <= q < |waiting| :: waiting[q] == Pending(CommitEdges(sorted), Elements(order), q)
  {
    var members: seq<nat>;
    groups, members := BuildGroups(sorted);
    MembersFollowCommits(sorted);
    CommitEdgesWellFormed(sorted);
    var n := |groups|;
    var successors, initial := BuildEdges(sorted, members, n);
    forall g: nat | g < n ensures groups[g] != [] { GroupNonEmpty(sorted, g); }
    var keys := seq(n, g requires 0 <= g < n => EventKey(groups[g][0]));
    assert keys == GroupKeys(sorted);
    order, waiting := Drain(n, keys, successors, initial, CommitEdges(sorted));
  }

  method MakeViews(sorted: seq<Event>, groups: seq<seq<Event>>, order: seq<nat>) returns (views: seq<CommitView>)
    requires forall k | 0 <= k < |order| :: order[k] < |groups|
    requires forall g: nat | g < |groups| :: groups[g] == Group(sorted, g)
    ensures views == ViewsOf(sorted, order)
  {
    views := [];
    for k := 0 to |order|
      invariant |views| == k && forall i | 0 <= i < k :: views[i] == NewCommitView(Group(sorted, order[i]), map[])
    {
      views := views + [NewCommitView(groups[order[k]], map[])];
    }
  }

  /** The commit IDs of the groups still waiting. */
  method Unfinished(sorted: seq<Event>, groups: seq<seq<Event>>, waiting: seq<nat>, ghost order: seq<nat>)
    returns (stuck: seq<string>)
    requires IsOrder(sorted, order) && |groups| == |waiting| == GroupCount(sorted)
    requires forall g: nat | g < |groups| :: groups[g] == Group(sorted, g)
    requires forall q | 0 <= q < |waiting| :: waiting[q] == Pending(CommitEdges(sorted), Elements(order), q)
    ensures stuck == LeftoverIDs(HeadIDs(sorted), order)
  {
    stuck := [];
    ghost var ids := HeadIDs(sorted);
    for i := 0 to |waiting|
      invariant stuck == LeftoverIDs(ids[..i], order)
    {
      GroupNonEmpty(sorted, i);
      WaitingMeansLeftOut(sorted, order, i);
      assert ids[..i + 1][..i] == ids[..i];
      if waiting[i] > 0 {
        stuck := stuck + [ID(groups[i][0])];
      }
    }
    assert ids[..|waiting|] == ids;
  }

  lemma {:induction false} WaitingMeansLeftOut(sorted: seq<Event>, order: seq<nat>, q: nat)
    requires IsOrder(sorted, order) && q < GroupCount(sorted)
    ensures Pending(CommitEdges(sorted), Elements(order), q) > 0 <==> q !in order
  {
    if q in order {
      DoneIsNotPending(GroupCount(sorted), CommitEdges(sorted), GroupKeys(sorted), order, q);
    } else {
      assert !Ready(CommitEdges(sorted), Elements(order), q);
    }
  }

  // ----- Which commits are reported, and which comes next

  lemma {:induction false} LeftoverListed(ids: seq<string>, order: seq<nat>, id: string)
    ensures id in LeftoverIDs(ids, order) <==> exists g: nat | g < |ids| && g !in order :: ids[g] == id
  {
    if ids != [] { LeftoverListed(ids[..|ids| - 1], order, id); }
  }

  lemma {:induction false} LeftoversCounted(ids: seq<string>, order: seq<nat>)
    ensures |LeftoverIDs(ids, order)| == |Below(|ids|) - Elements(order)|
  {
    if ids != [] {
      LeftoversCounted(ids[..|ids| - 1], order);
      OneMoreBelow(|ids| - 1, Elements(order));
    }
  }

  /** The error lists, once each and in byte order, the commits on a cycle or behind one. */
  lemma {:induction false} ReportedExactly(sorted: seq<Event>, order: seq<nat>, r: GroupResult)
    requires IsResult(sorted, order, r) && r.Unordered?
    ensures Sorted(r.commits, StringKey) && |r.commits| + |order| == GroupCount(sorted)
    ensures forall id :: id in r.commits <==> Reported(sorted, id)
  {
    var n, edges, keys := GroupCount(sorted), CommitEdges(sorted), GroupKeys(sorted);
    var left := LeftoverIDs(HeadIDs(sorted), order);
    SortKeeps(left, StringKey);
    assert |r.commits| == |multiset(r.commits)| == |multiset(left)| == |left|;
    LeftoversCounted(HeadIDs(sorted), order);
    GreedyDistinct(n, edges, keys, order);
    BelowIsInterval(n);
    assert Elements(order) <= Below(n);
    forall id ensures id in r.commits <==> Reported(sorted, id) {
      assert id in multiset(r.commits) <==> id in multiset(left);
      LeftoverIsReported(sorted, order, id);
    }
  }

  ghost predicate Reported(sorted: seq<Event>, id: string)
  {
    exists g: nat | g < GroupCount(sorted) && BehindCycle(CommitEdges(sorted), g) :: HeadID(sorted, g) == id
  }

  lemma {:induction false} LeftoverIsReported(sorted: seq<Event>, order: seq<nat>, id: string)
    requires IsOrder(sorted, order)
    ensures id in LeftoverIDs(HeadIDs(sorted), order) <==> Reported(sorted, id)
  {
    var n := GroupCount(sorted);
    CommitEdgesWellFormed(sorted);
    LeftoverListed(HeadIDs(sorted), order, id);
    forall g: nat | g < n ensures g !in order <==> BehindCycle(CommitEdges(sorted), g) {
      LeftOutExactly(n, CommitEdges(sorted), GroupKeys(sorted), order, g);
    }
  }

  lemma {:induction false} PickKeepsOrder(sorted: seq<Event>, members: seq<nat>, g: nat, f: Event)
    requires |members| == |sorted| && Sorted(sorted, EventKey) && f in Pick(sorted, members, g)
    ensures KeyLeq(EventKey(Pick(sorted, members, g)[0]), EventKey(f))
  {
    var last := |sorted| - 1;
    var front := Pick(sorted[..last], members[..last], g);
    if front == [] {
      KeyTotal(EventKey(f), EventKey(f));
    } else if f in front {
      PickKeepsOrder(sorted[..last], members[..last], g, f);
    } else {
      var i := PickFirstPosition(sorted[..last], members[..last], g);
      assert sorted[i] == front[0];
    }
  }

  /** Nothing before commit `q` in any stream is outside the first `k` commits of the order. */
  predicate Waitless(sorted: seq<Event>, order: seq<nat>, k: nat, q: nat)
    requires k <= |order|
  {
    forall i | 1 <= i < |sorted| && sorted[i - 1].entity == sorted[i].entity && Members(sorted)[i] == q ::
      Members(sorted)[i - 1] == q || Members(sorted)[i - 1] in order[..k]
  }

  lemma {:induction false} WaitlessIsReady(sorted: seq<Event>, order: seq<nat>, k: nat, q: nat)
    requires k <= |order| && q !in order[..k] && Waitless(sorted, order, k, q)
    ensures Ready(CommitEdges(sorted), Elements(order[..k]), q)
  {
    PendingZero(CommitEdges(sorted), Elements(order[..k]), q);
    forall e | e in CommitEdges(sorted) && e.1 == q ensures e.0 in order[..k] {
      EdgesAreSteps(sorted, Members(sorted), e);
    }
  }

  /** Of the commits that wait for nothing, the one holding the least (entity, sequence) comes next. */
  lemma {:induction false} LeastEventComesNext(sorted: seq<Event>, order: seq<nat>, k: nat)
    requires Sorted(sorted, EventKey) && IsOrder(sorted, order) && k < |order|
    ensures exists e | e in Group(sorted, order[k]) ::
              forall q: nat, f | q < GroupCount(sorted) && q !in order[..k] && Waitless(sorted, order, k, q)
                                 && f in Group(sorted, q) :: KeyLeq(EventKey(e), EventKey(f))
  {
    var n, edges, keys := GroupCount(sorted), CommitEdges(sorted), GroupKeys(sorted);
    assert GreedyAt(n, edges, keys, order, k);
    GroupNonEmpty(sorted, order[k]);
    var e := Group(sorted, order[k])[0];
    forall q: nat, f | q < n && q !in order[..k] && Waitless(sorted, order, k, q) && f in Group(sorted, q)
      ensures KeyLeq(EventKey(e), EventKey(f))
    {
      WaitlessIsReady(sorted, order, k, q);
      GroupNonEmpty(sorted, q);
      PickKeepsOrder(sorted, Members(sorted), q, f);
      KeyTransitive(keys[order[k]], keys[q], EventKey(f));
    }
  }

  // ----- One answer for every arrangement of the input

  lemma {:induction false} PickFirstPosition(sorted: seq<Event>, members: seq<nat>, g: nat) returns (i: nat)
    requires |members| == |sorted| && Pick(sorted, members, g) != []
    ensures i < |sorted| && members[i] == g && sorted[i] == Pick(sorted, members, g)[0]
  {
    var last := |sorted| - 1;
    if Pick(sorted[..last], members[..last], g) != [] {
      i := PickFirstPosition(sorted[..last], members[..last], g);
    } else {
      i := last;
    }
  }

  lemma {:induction false} GroupKeysDistinct(sorted: seq<Event>, g: nat, h: nat)
    requires DistinctKeys(sorted, EventKey) && g < h < GroupCount(sorted)
    ensures GroupKeys(sorted)[g] != GroupKeys(sorted)[h]
  {
    GroupNonEmpty(sorted, g);
    GroupNonEmpty(sorted, h);
    var i := PickFirstPosition(sorted, Members(sorted), g);
    var j := PickFirstPosition(sorted, Members(sorted), h);
  }

  /** For distinct (entity, sequence) pairs the result is the same for every permutation of the log. */
  lemma {:induction false} GroupingIgnoresInputOrder(a: seq<Event>, b: seq<Event>, orderA: seq<nat>, orderB: seq<nat>,
                                  ra: GroupResult, rb: GroupResult)
    requires multiset(a) == multiset(b) && DistinctKeys(a, EventKey)
    requires IsResult(Sort(a, EventKey), orderA, ra) && IsResult(Sort(b, EventKey), orderB, rb)
    ensures ra == rb
  {
    SortIgnoresOrder(a, b, EventKey);
    var sorted := Sort(a, EventKey);
    var keys := GroupKeys(sorted);
    forall i, j | 0 <= i < j < |keys| ensures keys[i] != keys[j] { GroupKeysDistinct(sorted, i, j); }
    GreedyUnique(GroupCount(sorted), CommitEdges(sorted), keys, orderA, orderB, 0);
  }
}
