/**
  A row handed from one stream to another: the first stream deletes it, and a later commit of
  another stream puts it again. The live store accepts every commit; the replay must refuse.
 */
module Handover {
  import opened Basics
  import opened Sequences
  import opened Order
  import opened CommitLog
  import opened Projection
  import opened Replay
  import opened Rebuild

  function Change(id: string, entity: string, sequence: int, payload: string): Event
  {
    Event("", entity, "account", sequence, payload, Metadata(id, None, None, None))
  }

  const PUT := Change("1", "a", 1, "put")
  const FREE := Change("2", "a", 2, "delete")
  const TAKE := Change("3", "b", 1, "put")
  const HANDOVER := [Commit("1", [PUT]), Commit("2", [FREE]), Commit("3", [TAKE])]

  /** Every event puts or deletes one row, on behalf of its own stream. */
  function OpFor(e: Event): ViewOp
  {
    ViewOp(if e.payload == "delete" then Delete else Put, "row", "0", e.entity, e.entityType, "", Unconditional)
  }

  const ONE_ROW := Projector(["account"],
    (v: CommitView) =>
      Some(if |v.streams| == 1 && |v.streams[0].events| == 1 then [OpFor(v.streams[0].events[0])] else []))

  const PROJECTORS: Projectors := [Some(ONE_ROW)]

  function OneEventView(e: Event, state: Option<string>): CommitView
  {
    CommitView(ID(e), [CommitStream(e.entity, e.entityType, [e], state)])
  }

  lemma {:induction false} LiveViewOfOne(c: Commit, e: Event)
    requires c.events == [e]
    ensures LiveView(c) == OneEventView(Stored(e), None)
  {
    assert c.events[1..] == [] && Sort(c.events, EventKey) == [e];
    var sorted := [e];
    assert sorted[..0] == [] && Streams(sorted[..0], map[]) == [];
    assert Streams(sorted, map[]) == AddEvent([], Stored(e), map[]);
  }

  lemma {:induction false} AsciiOperation(op: ViewOp)
    requires op.pk != "" && op.sk != "" && op.owner != "" && !op.kind.UnknownKind? && op.condition.Unconditional?
    requires Ascii(op.pk) && Ascii(op.sk) && Ascii(op.owner) && Ascii(op.entityType) && Ascii(op.payload)
    ensures ValidOp(op)
  {
    AsciiIsValid(op.pk);
    AsciiIsValid(op.sk);
    AsciiIsValid(op.owner);
    AsciiIsValid(op.entityType);
    AsciiIsValid(op.payload);
  }

  lemma {:induction false} OperationIsValid(e: Event)
    requires e.entityType == "account" && e.entity in {"a", "b"}
    ensures ValidOp(OpFor(e)) && Fits(OpFor(e)) && !ReservedRow(OpFor(e))
  {
    AsciiOperation(OpFor(e));
  }

  /** One projector with one acceptable operation. */
  lemma {:induction false} ProjectsOne(p: Projector, v: CommitView, op: ViewOp)
    requires p.run(VisibleTo(v, p.history)) == Some([op]) && OwnedBy(v.streams, op, p.history) && ViewEvents(v) != []
    requires ValidOp(op) && Fits(op) && !ReservedRow(op)
    ensures ProjectCommit([Some(p)], v) == Ok([Projected(Ref(0, 0), op)])
  {
    var items, all := [Projected(Ref(0, 0), op)], [Some(p)];
    assert Accept([op], v, p.history, 0, 1) == Ok([]);
    assert Accept([op], v, p.history, 0, 0) == Ok(items + []) && items + [] == items;
    assert RunProjectors(all, v, 1) == Ok([]) && RunProjectors(all, v, 0) == Ok(items + []);
    CheckViewsExact(items, map[]);
    assert DistinctRows(items);
  }

  lemma {:induction false} OneOperation(e: Event, state: Option<string>)
    requires e.entityType == "account" && e.entity in {"a", "b"}
    ensures ProjectCommit(PROJECTORS, OneEventView(e, state)) == Ok([Projected(Ref(0, 0), OpFor(e))])
  {
    var v := OneEventView(e, state);
    assert VisibleTo(v, ONE_ROW.history).streams == v.streams && VisibleTo(v, ONE_ROW.history) == v;
    assert v.streams[..0] == [] && StreamEvents(v.streams) == StreamEvents([]) + [e];
    assert ONE_ROW.run(v) == Some([OpFor(e)]) && v.streams[0].entityType in ONE_ROW.history;
    OperationIsValid(e);
    ProjectsOne(ONE_ROW, v, OpFor(e));
  }

  lemma {:induction false} StatedOne(apply: (string, Event) -> string, commits: seq<CommitView>, e: Event)
    ensures exists state :: Stated(apply, commits, OneEventView(e, None)) == OneEventView(e, state)
  {
    var v := OneEventView(e, None);
    var state := Some(StateAfter(apply, commits, e.entity));
    assert Stated(apply, commits, v).streams == OneEventView(e, state).streams;
    assert Stated(apply, commits, v) == OneEventView(e, state);
  }

  lemma {:induction false} HeadOfOne(h: seq<Commit>, n: nat, e: Event, id: string)
    requires n < |h| && h[n].events == [e]
    ensures Head(h, n + 1, id) == Head(h, n, id) + if e.entity == id then 1 else 0
  {
    FilterSnoc((x: Event) => x.entity == id, [], e);
    assert [] + [e] == h[n].events;
  }

  lemma {:induction false} HandoverHeads(id: string)
    ensures Head(HANDOVER, 1, id) == if id == "a" then 1 else 0
    ensures Head(HANDOVER, 2, id) == if id == "a" then 2 else 0
    ensures Head(HANDOVER, 3, id) == if id == "a" then 2 else if id == "b" then 1 else 0
  {
    HeadOfOne(HANDOVER, 0, PUT, id);
    HeadOfOne(HANDOVER, 1, FREE, id);
    HeadOfOne(HANDOVER, 2, TAKE, id);
  }

  lemma {:induction false} HandoverIsLive()
    ensures LiveHistory(HANDOVER)
  {
    HandoverHeads("a");
    HandoverHeads("b");
    assert LiveCommit(HANDOVER, 0) && LiveCommit(HANDOVER, 1) && LiveCommit(HANDOVER, 2);
  }

  /** Commit number `i` of the handover, with its state. */
  lemma {:induction false} HandoverView(
    apply: (string, Event) -> string, i: nat, e: Event) returns (state: Option<string>)
    requires i < 3 && HANDOVER[i].events == [e]
    ensures WithStates(apply, LiveViews(HANDOVER))[i] == OneEventView(Stored(e), state)
  {
    var views := LiveViews(HANDOVER);
    LiveViewOfOne(HANDOVER[i], e);
    StatedOne(apply, views[..i + 1], Stored(e));
    state :| Stated(apply, views[..i + 1], OneEventView(Stored(e), None)) == OneEventView(Stored(e), state);
  }

  lemma {:induction false} HandoverProjects(apply: (string, Event) -> string, i: nat, e: Event)
    requires i < 3 && HANDOVER[i].events == [e]
    requires e.entityType == "account" && e.entity in {"a", "b"}
    ensures ProjectCommit(PROJECTORS, WithStates(apply, LiveViews(HANDOVER))[i]) == Ok([Projected(Ref(0, 0), OpFor(e))])
  {
    var state := HandoverView(apply, i, e);
    OneOperation(Stored(e), state);
  }

  predicate GivesOne(projectors: Projectors, v: CommitView, op: ViewOp)
  {
    ProjectCommit(projectors, v) == Ok([Projected(Ref(0, 0), op)]) && op.condition.Unconditional?
  }

  /** Put by one stream, deleted by it, and put by another: all accepted, with two owners. */
  lemma {:induction false} ThreeCommits(
    projectors: Projectors, a: CommitView, b: CommitView, c: CommitView, p: ViewOp, f: ViewOp, t: ViewOp)
    requires GivesOne(projectors, a, p) && GivesOne(projectors, b, f) && GivesOne(projectors, c, t)
    requires p.kind.Put? && f.kind.Delete? && t.kind.Put?
    requires KeyOf(p) == KeyOf(f) == KeyOf(t) && p.owner == f.owner != t.owner
    ensures var views := [] + [a] + [b] + [c]; LiveRows(projectors, views).Some? && !OneOwner(Ops(projectors, views))
  {
    OneLive(projectors, [], a, p);
    OneLive(projectors, [] + [a], b, f);
    OneLive(projectors, [] + [a] + [b], c, t);
    TwoOwners(Ops(projectors, [] + [a]), Projected(Ref(0, 0), f), Projected(Ref(0, 0), t), p);
  }

  lemma {:induction false} ThreeViews(projectors: Projectors, views: seq<CommitView>, p: ViewOp, f: ViewOp, t: ViewOp)
    requires |views| == 3
    requires GivesOne(projectors, views[0], p) && GivesOne(projectors, views[1], f) && GivesOne(projectors, views[2], t)
    requires p.kind.Put? && f.kind.Delete? && t.kind.Put?
    requires KeyOf(p) == KeyOf(f) == KeyOf(t) && p.owner == f.owner != t.owner
    ensures LiveRows(projectors, views).Some? && !OneOwner(Ops(projectors, views))
  {
    ThreeCommits(projectors, views[0], views[1], views[2], p, f, t);
    assert views == [] + [views[0]] + [views[1]] + [views[2]];
  }

  lemma {:induction false} TwoOwners(ops: seq<Projected>, f: Projected, t: Projected, p: ViewOp)
    requires |ops| == 1 && ops[0].op == p && KeyOf(p) == KeyOf(t.op) && p.owner != t.op.owner
    ensures !OneOwner(ops + [f] + [t])
  {
    var all := ops + [f] + [t];
    assert all[0].op == p && all[2].op == t.op;
  }

  /** One more commit with one unconditional operation, on a row of its own stream or no row. */
  lemma {:induction false} OneLive(projectors: Projectors, before: seq<CommitView>, v: CommitView, op: ViewOp)
    requires LiveRows(projectors, before).Some? && GivesOne(projectors, v, op)
    requires var rows := LiveRows(projectors, before).value; KeyOf(op) in rows ==> rows[KeyOf(op)].entityID == op.owner
    ensures LiveRows(projectors, before + [v]) == Some(ApplyOp(LiveRows(projectors, before).value, op))
    ensures Ops(projectors, before + [v]) == Ops(projectors, before) + [Projected(Ref(0, 0), op)]
  {
    var all := before + [v];
    assert all[..|all| - 1] == before && all[|all| - 1] == v;
    var items := [Projected(Ref(0, 0), op)];
    var rows := LiveRows(projectors, before).value;
    assert items[..0] == [] && ApplyOps(rows, items[..0]) == rows && ApplyOps(rows, items) == ApplyOp(rows, op);
    assert ConditionsHold(rows, items);
    FlatMapSnoc(c => OpsOfOne(projectors, c), before, v);
  }

  /**
    A row handed from one stream to another: three commits the live store accepts, whose log is
    refused by every replay, since the row's operations have two owners.
   */
  lemma {:induction false} HandedRowIsAcceptedLive(apply: (string, Event) -> string)
    ensures LogOf(HANDOVER, StoredLog(HANDOVER))
    ensures var live := WithStates(apply, LiveViews(HANDOVER));
            LiveRows(PROJECTORS, live).Some? && !OneOwner(Ops(PROJECTORS, live))
  {
    HandoverIsLive();
    HandoverProjects(apply, 0, PUT);
    HandoverProjects(apply, 1, FREE);
    HandoverProjects(apply, 2, TAKE);
    ThreeViews(PROJECTORS, WithStates(apply, LiveViews(HANDOVER)), OpFor(PUT), OpFor(FREE), OpFor(TAKE));
  }
}
