/**
  Replaying commits into view rows, and why the order of the commits does not matter as long
  as every stream's own order is kept.

  An operation on a row comes from a commit that wrote the row's owner stream, so while a row
  has one owner its operations are ordered by that stream alone.
 */
module Replay {
  import opened Basics
  import opened Order
  import opened Sequences
  import opened CommitLog
  import opened Projection

  datatype Row = Row(pk: string, sk: string, entityID: string, entityType: string, payload: string)

  type Rows = map<RowKey, Row>

  type Projectors = seq<Option<Projector>>

  function RowOf(op: ViewOp): Row
  {
    Row(op.pk, op.sk, op.owner, op.entityType, op.payload)
  }

  function ApplyOp(rows: Rows, op: ViewOp): Rows
  {
    if op.kind.Delete? then rows - {KeyOf(op)} else rows[KeyOf(op) := RowOf(op)]
  }

  function ApplyOps(rows: Rows, ops: seq<Projected>): Rows
  {
    if ops == [] then rows else ApplyOp(ApplyOps(rows, ops[..|ops| - 1]), ops[|ops| - 1].op)
  }

  ghost predicate AllProject(projectors: Projectors, commits: seq<CommitView>)
  {
    forall i | 0 <= i < |commits| :: ProjectCommit(projectors, commits[i]).Ok?
  }

  function OpsOfOne(projectors: Projectors, commit: CommitView): seq<Projected>
  {
    var r := ProjectCommit(projectors, commit);
    if r.Ok? then r.value else []
  }

  /** Every operation of the commits, in order. */
  function Ops(projectors: Projectors, commits: seq<CommitView>): seq<Projected>
  {
    FlatMap(c => OpsOfOne(projectors, c), commits)
  }

  /** No row is written on behalf of two streams. */
  ghost predicate OneOwner(ops: seq<Projected>)
  {
    forall i, j | 0 <= i < |ops| && 0 <= j < |ops| && KeyOf(ops[i].op) == KeyOf(ops[j].op) ::
      ops[i].op.owner == ops[j].op.owner
  }

  ghost predicate Replays(projectors: Projectors, commits: seq<CommitView>)
  {
    AllProject(projectors, commits) && OneOwner(Ops(projectors, commits))
  }

  function RowsOf(projectors: Projectors, commits: seq<CommitView>): Rows
  {
    ApplyOps(map[], Ops(projectors, commits))
  }

  // ----- ReplayViews

  datatype ReplayError = ProjectFailed(error: ProjectError) | SharedViewKey(key: RowKey, first: string, second: string)

  function RowSortKey(row: Row): Key { (row.pk, row.sk, 0) }

  /** The rows of the map, ordered by pk then sk. */
  ghost predicate IsListing(list: seq<Row>, rows: Rows)
  {
    && Sorted(list, RowSortKey) && DistinctKeys(list, RowSortKey)
    && forall row :: row in list <==> (row.pk, row.sk) in rows && rows[(row.pk, row.sk)] == row
  }

  /** A listing ascends by pk, then by sk, in byte order. */
  lemma {:induction false} ListingAscends(list: seq<Row>, rows: Rows, i: nat, j: nat)
    requires IsListing(list, rows) && i < j < |list|
    ensures StrLess(list[i].pk, list[j].pk) || (list[i].pk == list[j].pk && StrLess(list[i].sk, list[j].sk))
  {
    assert KeyLeq(RowSortKey(list[i]), RowSortKey(list[j])) && RowSortKey(list[i]) != RowSortKey(list[j]);
  }

  predicate OwnRows(rows: Rows)
  {
    forall k | k in rows :: (rows[k].pk, rows[k].sk) == k
  }

  ghost predicate OwnersAre(owners: map<RowKey, string>, ops: seq<Projected>)
  {
    && (forall i | 0 <= i < |ops| :: KeyOf(ops[i].op) in owners && owners[KeyOf(ops[i].op)] == ops[i].op.owner)
    && (forall k | k in owners :: exists i | 0 <= i < |ops| :: KeyOf(ops[i].op) == k)
  }

  lemma {:induction false} SharedKey(
    owners: map<RowKey, string>, ops: seq<Projected>, item: Projected, more: seq<Projected>)
    requires OwnersAre(owners, ops)
    requires KeyOf(item.op) in owners && owners[KeyOf(item.op)] != item.op.owner
    ensures !OneOwner(ops + [item] + more)
  {
    var all := ops + [item] + more;
    var i :| 0 <= i < |ops| && KeyOf(ops[i].op) == KeyOf(item.op);
    assert all[i] == ops[i] && all[|ops|] == item;
  }

  lemma {:induction false} OpsAppend(projectors: Projectors, a: seq<CommitView>, b: seq<CommitView>)
    ensures Ops(projectors, a + b) == Ops(projectors, a) + Ops(projectors, b)
  {
    FlatMapAppend(c => OpsOfOne(projectors, c), a, b);
  }

  /** A row shared within a prefix of the commits is shared. */
  lemma {:induction false} SharedInPrefix(projectors: Projectors, commits: seq<CommitView>, i: nat)
    requires i <= |commits| && !OneOwner(Ops(projectors, commits[..i]))
    ensures !OneOwner(Ops(projectors, commits))
  {
    OpsAppend(projectors, commits[..i], commits[i..]);
    assert commits == commits[..i] + commits[i..];
    SharedStays(Ops(projectors, commits[..i]), Ops(projectors, commits[i..]));
  }

  lemma {:induction false} SharedStays(a: seq<Projected>, b: seq<Projected>)
    requires !OneOwner(a)
    ensures !OneOwner(a + b)
  {
    var x, y :| 0 <= x < |a| && 0 <= y < |a| && KeyOf(a[x].op) == KeyOf(a[y].op) && a[x].op.owner != a[y].op.owner;
    assert (a + b)[x] == a[x] && (a + b)[y] == a[y];
  }

  datatype Progress = Progress(rows: Rows, owners: map<RowKey, string>)

  ghost predicate Reached(progress: Progress, ops: seq<Projected>)
  {
    progress.rows == ApplyOps(map[], ops) && OwnRows(progress.rows) && OwnersAre(progress.owners, ops)
  }

  lemma {:induction false} ReachedSnoc(progress: Progress, ops: seq<Projected>, item: Projected)
    requires Reached(progress, ops)
    requires KeyOf(item.op) in progress.owners ==> progress.owners[KeyOf(item.op)] == item.op.owner
    ensures Reached(Progress(ApplyOp(progress.rows, item.op), progress.owners[KeyOf(item.op) := item.op.owner]),
                    ops + [item])
  {}

  lemma {:induction false} SplitAt<T>(a: seq<T>, b: seq<T>, j: nat)
    requires j < |b|
    ensures a + b == a + b[..j] + [b[j]] + b[j + 1..]
    ensures a + b[..j + 1] == a + b[..j] + [b[j]]
  {}

  /** Operation `j` is the first on a row that an earlier one wrote for another owner, and the error names both. */
  ghost predicate SharedAt(ops: seq<Projected>, j: nat, error: ReplayError)
  {
    && j < |ops| && OneOwner(ops[..j]) && error.SharedViewKey?
    && error.key == KeyOf(ops[j].op) && error.second == ops[j].op.owner != error.first
    && exists i | 0 <= i < j :: KeyOf(ops[i].op) == error.key && ops[i].op.owner == error.first
  }

  lemma {:induction false} FoundShared(
    owners: map<RowKey, string>, ops: seq<Projected>, item: Projected, more: seq<Projected>)
    requires OwnersAre(owners, ops)
    requires KeyOf(item.op) in owners && owners[KeyOf(item.op)] != item.op.owner
    ensures SharedAt(ops + [item] + more, |ops|, SharedViewKey(KeyOf(item.op), owners[KeyOf(item.op)], item.op.owner))
  {
    var all := ops + [item] + more;
    assert all[..|ops|] == ops && all[|ops|] == item;
    var i :| 0 <= i < |ops| && KeyOf(ops[i].op) == KeyOf(item.op);
    assert all[i] == ops[i];
  }

  /** Commit `i` stops the replay: it does not project, or one of its operations shares a row. */
  ghost predicate StopsReplay(projectors: Projectors, commits: seq<CommitView>, i: nat, error: ReplayError)
    requires i < |commits|
  {
    && Replays(projectors, commits[..i])
    && match ProjectCommit(projectors, commits[i])
       case Err(e) => error == ProjectFailed(e)
       case Ok(items) => exists j: nat :: SharedAt(Ops(projectors, commits[..i]) + items, j, error)
  }

  /** Applies one commit's operations; a row of another owner stops the replay. */
  method ApplyCommit(items: seq<Projected>, start: Progress, ghost before: seq<Projected>)
    returns (r: Result<Progress, ReplayError>)
    requires Reached(start, before)
    ensures r.Ok? ==> Reached(r.value, before + items)
    ensures r.Err? ==> !OneOwner(before + items) && exists j: nat :: SharedAt(before + items, j, r.error)
  {
    var rows, owners := start.rows, start.owners;
    assert before + items[..0] == before;
    for j := 0 to |items|
      invariant Reached(Progress(rows, owners), before + items[..j])
    {
      var op := items[j].op;
      SplitAt(before, items, j);
      if KeyOf(op) in owners && owners[KeyOf(op)] != op.owner {
        SharedKey(owners, before + items[..j], items[j], items[j + 1..]);
        FoundShared(owners, before + items[..j], items[j], items[j + 1..]);
        return Err(SharedViewKey(KeyOf(op), owners[KeyOf(op)], op.owner));
      }
      ReachedSnoc(Progress(rows, owners), before + items[..j], items[j]);
      owners := owners[KeyOf(op) := op.owner];
      if op.kind.Delete? {
        rows := rows - {KeyOf(op)};
      } else {
        rows := rows[KeyOf(op) := RowOf(op)];
      }
    }
    assert items[..|items|] == items;
    r := Ok(Progress(rows, owners));
  }

  method ReplayViews(projectors: Projectors, commits: seq<CommitView>) returns (r: Result<seq<Row>, ReplayError>)
    ensures r.Ok? <==> Replays(projectors, commits)
    ensures r.Ok? ==> IsListing(r.value, RowsOf(projectors, commits))
    ensures r.Err? ==> exists i: nat | i < |commits| :: StopsReplay(projectors, commits, i, r.error)
  {
    var progress := Progress(map[], map[]);
    for i := 0 to |commits|
      invariant AllProject(projectors, commits[..i])
      invariant Reached(progress, Ops(projectors, commits[..i]))
    {
      var projected := ProjectCommit(projectors, commits[i]);
      if projected.Err? {
        assert StopsReplay(projectors, commits, i, ProjectFailed(projected.error));
        return Err(ProjectFailed(projected.error));
      }
      assert commits[..i + 1] == commits[..i] + [commits[i]];
      var next := ApplyCommit(projected.value, progress, Ops(projectors, commits[..i]));
      if next.Err? {
        SharedInPrefix(projectors, commits, i + 1);
        assert StopsReplay(projectors, commits, i, next.error);
        return Err(next.error);
      }
      progress := next.value;
    }
    assert commits[..|commits|] == commits;
    var list := ListRows(progress.rows);
    r := Ok(list);
  }

  /** Collects the map's rows in any order and sorts them. */
  method ListRows(rows: Rows) returns (list: seq<Row>)
    requires OwnRows(rows)
    ensures IsListing(list, rows)
  {
    var left := rows.Keys;
    var collected: seq<Row> := [];
    while left != {}
      invariant left <= rows.Keys
      invariant DistinctKeys(collected, RowSortKey)
      invariant forall row :: row in collected <==>
                  (row.pk, row.sk) in rows && (row.pk, row.sk) !in left && rows[(row.pk, row.sk)] == row
      decreases left
    {
      var k :| k in left;
      collected := collected + [rows[k]];
      left := left - {k};
    }
    list := Sort(collected, RowSortKey);
    SortKeeps(collected, RowSortKey);
    DistinctKept(collected, list, RowSortKey);
    forall row ensures row in list <==> row in collected {
      assert row in multiset(list) <==> row in multiset(collected);
    }
  }

  /** A map has one listing. */
  lemma {:induction false} RowListingUnique(a: seq<Row>, b: seq<Row>, rows: Rows)
    requires IsListing(a, rows) && IsListing(b, rows)
    ensures a == b
  {
    ListingUnique(a, b, RowSortKey);
  }

  // ----- Confluence

  /** The commits that wrote a stream, in order. */
  function Writers(commits: seq<CommitView>, entity: string): seq<CommitView>
  {
    Filter(c => WritesTo(c, entity), commits)
  }

  /** Two orders that every stream agrees with. */
  ghost predicate SameStreams(p: seq<CommitView>, q: seq<CommitView>)
  {
    forall entity :: Writers(p, entity) == Writers(q, entity)
  }

  /** The operations on one row, in order. */
  function OpsOn(ops: seq<Projected>, k: RowKey): seq<Projected>
  {
    Filter((item: Projected) => KeyOf(item.op) == k, ops)
  }

  function Last(ops: seq<Projected>): Option<Row>
  {
    if ops == [] || ops[|ops| - 1].op.kind.Delete? then None else Some(RowOf(ops[|ops| - 1].op))
  }

  /** A row is what the last operation on it left. */
  lemma {:induction false} RowIsLastOp(ops: seq<Projected>, k: RowKey)
    ensures var rows := ApplyOps(map[], ops);
            (if k in rows then Some(rows[k]) else None) == Last(OpsOn(ops, k))
  {
    if ops != [] {
      RowIsLastOp(ops[..|ops| - 1], k);
      assert ops == ops[..|ops| - 1] + [ops[|ops| - 1]];
      FilterSnoc((item: Projected) => KeyOf(item.op) == k, ops[..|ops| - 1], ops[|ops| - 1]);
    }
  }

  lemma {:induction false} OpsMember(projectors: Projectors, commits: seq<CommitView>, item: Projected)
    ensures item in Ops(projectors, commits) <==>
            exists i | 0 <= i < |commits| :: item in OpsOfOne(projectors, commits[i])
  {
    FlatMapMember(c => OpsOfOne(projectors, c), commits, item);
  }

  lemma {:induction false} WritersMember(commits: seq<CommitView>, entity: string, c: CommitView)
    ensures c in Writers(commits, entity) <==> c in commits && WritesTo(c, entity)
  {
    FilterMember(v => WritesTo(v, entity), commits, c);
  }

  /** An operation is emitted only by commits that wrote its owner. */
  lemma {:induction false} OwnerWroteIt(projectors: Projectors, c: CommitView, item: Projected)
    requires item in OpsOfOne(projectors, c)
    ensures WritesTo(c, item.op.owner)
  {
    ProjectionIsSound(projectors, c);
  }

  /** With one owner, the operations on a row come from the owner's writers alone. */
  lemma {:induction false} RowOpsFromWriters(projectors: Projectors, commits: seq<CommitView>, k: RowKey, owner: string)
    requires forall item | item in Ops(projectors, commits) && KeyOf(item.op) == k :: item.op.owner == owner
    ensures OpsOn(Ops(projectors, commits), k) == OpsOn(Ops(projectors, Writers(commits, owner)), k)
  {
    forall i | 0 <= i < |commits| && !WritesTo(commits[i], owner)
      ensures OpsOn(OpsOfOne(projectors, commits[i]), k) == []
    {
      ForeignCommit(projectors, commits, k, owner, i);
    }
    FilterThroughFlatMap((item: Projected) => KeyOf(item.op) == k, c => OpsOfOne(projectors, c),
                         v => WritesTo(v, owner), commits);
  }

  lemma {:induction false} ForeignCommit(
    projectors: Projectors, commits: seq<CommitView>, k: RowKey, owner: string, i: nat)
    requires i < |commits| && !WritesTo(commits[i], owner)
    requires forall item | item in Ops(projectors, commits) && KeyOf(item.op) == k :: item.op.owner == owner
    ensures OpsOn(OpsOfOne(projectors, commits[i]), k) == []
  {
    var mine := OpsOfOne(projectors, commits[i]);
    forall item | item in mine ensures KeyOf(item.op) != k {
      OwnerWroteIt(projectors, commits[i], item);
      OpsMember(projectors, commits, item);
    }
    FilterEmpty((item: Projected) => KeyOf(item.op) == k, mine);
  }

  lemma {:induction false} SameCommits(p: seq<CommitView>, q: seq<CommitView>, c: CommitView, entity: string)
    requires SameStreams(p, q) && c in p && WritesTo(c, entity)
    ensures c in q
  {
    WritersMember(p, entity, c);
    WritersMember(q, entity, c);
    assert Writers(p, entity) == Writers(q, entity);
  }

  lemma {:induction false} SameOps(projectors: Projectors, p: seq<CommitView>, q: seq<CommitView>, item: Projected)
    requires SameStreams(p, q) && item in Ops(projectors, p)
    ensures item in Ops(projectors, q)
  {
    OpsMember(projectors, p, item);
    var i :| 0 <= i < |p| && item in OpsOfOne(projectors, p[i]);
    OwnerWroteIt(projectors, p[i], item);
    SameCommits(p, q, p[i], item.op.owner);
    var j :| 0 <= j < |q| && q[j] == p[i];
    OpsMember(projectors, q, item);
  }

  lemma {:induction false} ReplaysTransfers(projectors: Projectors, p: seq<CommitView>, q: seq<CommitView>)
    requires SameStreams(p, q) && Replays(projectors, p)
    ensures Replays(projectors, q)
  {
    forall j | 0 <= j < |q| ensures ProjectCommit(projectors, q[j]).Ok? {
      if q[j].streams == [] {
        NoEventsNoOperations(projectors, q[j]);
      } else {
        var entity := q[j].streams[0].entity;
        assert WritesTo(q[j], entity);
        SameCommits(q, p, q[j], entity);
      }
    }
    var a, b := Ops(projectors, p), Ops(projectors, q);
    forall i, j | 0 <= i < |b| && 0 <= j < |b| && KeyOf(b[i].op) == KeyOf(b[j].op)
      ensures b[i].op.owner == b[j].op.owner
    {
      SameOps(projectors, q, p, b[i]);
      SameOps(projectors, q, p, b[j]);
    }
  }

  lemma {:induction false} RowTransfers(projectors: Projectors, p: seq<CommitView>, q: seq<CommitView>, k: RowKey)
    requires SameStreams(p, q) && Replays(projectors, p) && Replays(projectors, q)
    ensures OpsOn(Ops(projectors, p), k) == OpsOn(Ops(projectors, q), k)
  {
    var a, b := Ops(projectors, p), Ops(projectors, q);
    if item :| item in a && KeyOf(item.op) == k {
      var owner := item.op.owner;
      SameOps(projectors, p, q, item);
      RowOpsFromWriters(projectors, p, k, owner);
      RowOpsFromWriters(projectors, q, k, owner);
      assert Writers(p, owner) == Writers(q, owner);
    } else {
      forall item | item in b ensures KeyOf(item.op) != k { SameOps(projectors, q, p, item); }
      FilterEmpty((item: Projected) => KeyOf(item.op) == k, a);
      FilterEmpty((item: Projected) => KeyOf(item.op) == k, b);
    }
  }

  /** Two orders every stream agrees with replay to the same rows, or are both refused. */
  lemma {:induction false} ReplayIsConfluent(projectors: Projectors, p: seq<CommitView>, q: seq<CommitView>)
    requires SameStreams(p, q)
    ensures Replays(projectors, p) <==> Replays(projectors, q)
    ensures AllProject(projectors, p) <==> AllProject(projectors, q)
    ensures Replays(projectors, p) ==> RowsOf(projectors, p) == RowsOf(projectors, q)
  {
    if Replays(projectors, p) { ReplaysTransfers(projectors, p, q); }
    if Replays(projectors, q) { ReplaysTransfers(projectors, q, p); }
    AllProjectTransfers(projectors, p, q);
    AllProjectTransfers(projectors, q, p);
    if Replays(projectors, p) {
      forall k ensures (k in RowsOf(projectors, p) <==> k in RowsOf(projectors, q))
                       && (k in RowsOf(projectors, p) ==> RowsOf(projectors, p)[k] == RowsOf(projectors, q)[k])
      {
        RowTransfers(projectors, p, q, k);
        RowIsLastOp(Ops(projectors, p), k);
        RowIsLastOp(Ops(projectors, q), k);
      }
    }
  }

  lemma {:induction false} AllProjectTransfers(projectors: Projectors, p: seq<CommitView>, q: seq<CommitView>)
    requires SameStreams(p, q)
    ensures AllProject(projectors, p) ==> AllProject(projectors, q)
  {
    if AllProject(projectors, p) {
      forall j | 0 <= j < |q| ensures ProjectCommit(projectors, q[j]).Ok? {
        if q[j].streams != [] {
          var entity := q[j].streams[0].entity;
          assert WritesTo(q[j], entity);
          SameCommits(q, p, q[j], entity);
        }
      }
    }
  }
}
