/**
  Running commit-wide projectors over a commit: the view each kind of projector is given, the
  checks on what it returns, and the operations the commit writes.
 */
module Projection {
  import opened Basics
  import opened CommitLog

  datatype ViewKind = Put | Delete | UnknownKind
  datatype Condition = Unconditional | Absent | Present | UnknownCondition

  datatype ViewOp = ViewOp(
    kind: ViewKind, pk: string, sk: string, owner: string, entityType: string, payload: string, condition: Condition)

  type RowKey = (string, string)

  function KeyOf(op: ViewOp): RowKey { (op.pk, op.sk) }

  const MAX_PK := 2048
  const MAX_SK := 1024
  const RESERVED := ["journal#", "journal-counter#", "journal-compaction#"]

  /** A pure projector: None is its error. An empty history is a current-state projector. */
  datatype Projector = Projector(history: seq<string>, run: CommitView -> Option<seq<ViewOp>>)

  datatype Ref = Ref(projector: nat, operation: nat)

  datatype Projected = Projected(ref: Ref, op: ViewOp)

  datatype ProjectError =
    | ProjectorFailed(projector: nat)
    | InvalidOperation(ref: Ref)
    | ReservedViewKey(ref: Ref)
    | ViewKeyTooLong(ref: Ref)
    | DuplicateViewKey(first: Ref, second: Ref)

  // ----- Validity of one operation

  predicate Tail(c: char) { 0x80 <= c as int <= 0xbf }

  /** The length of the UTF-8 encoding of a code point at the start of the bytes, or 0 when there is none. */
  function Utf8Length(s: string): nat
    requires s != ""
  {
    var b := s[0] as int;
    if b < 0x80 then 1
    else if |s| < 2 then 0
    else
      var c := s[1] as int;
      if 0xc2 <= b <= 0xdf then (if Tail(s[1]) then 2 else 0)
      else if |s| < 3 || !Tail(s[2]) then 0
      else if 0xe0 <= b <= 0xef then
        (if (if b == 0xe0 then 0xa0 else 0x80) <= c <= (if b == 0xed then 0x9f else 0xbf) then 3 else 0)
      else if |s| < 4 || !Tail(s[3]) then 0
      else if 0xf0 <= b <= 0xf4 then
        (if (if b == 0xf0 then 0x90 else 0x80) <= c <= (if b == 0xf4 then 0x8f else 0xbf) then 4 else 0)
      else 0
  }

  predicate ValidUtf8(s: string)
  {
    s == "" || (Utf8Length(s) > 0 && ValidUtf8(s[Utf8Length(s)..]))
  }

  /** What every back-end can store as text. */
  predicate ValidText(s: string) { ValidUtf8(s) && '\0' !in s }

  predicate Ascii(s: string)
  {
    forall i | 0 <= i < |s| :: 0 < s[i] as int < 0x80
  }

  lemma {:induction false} AsciiIsValid(s: string)
    requires Ascii(s)
    ensures ValidText(s)
  {
    if s != "" { AsciiIsValid(s[1..]); }
  }

  predicate ValidOp(op: ViewOp)
  {
    && (op.kind.Put? || op.kind.Delete?)
    && (op.kind.Put? ==> op.condition.Unconditional? || op.condition.Absent?)
    && (op.kind.Delete? ==> op.condition.Unconditional? || op.condition.Present?)
    && op.pk != "" && op.sk != "" && op.owner != ""
    && ValidText(op.pk) && ValidText(op.sk) && ValidText(op.owner)
    && (op.kind.Put? ==> ValidText(op.entityType) && ValidText(op.payload))
  }

  predicate Fits(op: ViewOp)
  {
    |op.pk| <= MAX_PK && |op.sk| <= MAX_SK
  }

  predicate ReservedRow(op: ViewOp)
  {
    exists i | 0 <= i < |RESERVED| :: RESERVED[i] <= op.pk
  }

  /** What an operation may be, field by field. */
  lemma {:induction false} OperationExactly(op: ViewOp)
    ensures ValidOp(op) <==>
            && op.pk != "" && op.sk != "" && op.owner != ""
            && ValidText(op.pk) && ValidText(op.sk) && ValidText(op.owner)
            && match op.kind
               case Put =>
                 op.condition in {Unconditional, Absent} && ValidText(op.entityType) && ValidText(op.payload)
               case Delete => op.condition in {Unconditional, Present}
               case _ => false
    ensures Fits(op) <==> |op.pk| <= 2048 && |op.sk| <= 1024
    ensures ReservedRow(op) <==>
            "journal#" <= op.pk || "journal-counter#" <= op.pk || "journal-compaction#" <= op.pk
  {
    assert RESERVED[0] == "journal#" && RESERVED[1] == "journal-counter#" && RESERVED[2] == "journal-compaction#";
  }

  /** Checks operations in order: each valid, then within the limits, then not a repeated key. */
  function CheckViews(views: seq<Projected>, seen: map<RowKey, Ref>): Option<ProjectError>
  {
    if views == [] then None
    else
      var view := views[0];
      if !ValidOp(view.op) then Some(InvalidOperation(view.ref))
      else if !Fits(view.op) then Some(ViewKeyTooLong(view.ref))
      else if KeyOf(view.op) in seen then Some(DuplicateViewKey(seen[KeyOf(view.op)], view.ref))
      else CheckViews(views[1..], seen[KeyOf(view.op) := view.ref])
  }

  predicate DistinctRows(views: seq<Projected>)
  {
    forall i, j | 0 <= i < j < |views| :: KeyOf(views[i].op) != KeyOf(views[j].op)
  }

  /** The check passes exactly when every operation is sound and no row is targeted twice. */
  lemma {:induction false} CheckViewsExact(views: seq<Projected>, seen: map<RowKey, Ref>)
    ensures CheckViews(views, seen).None? <==>
            && (forall i | 0 <= i < |views| :: ValidOp(views[i].op) && Fits(views[i].op) && KeyOf(views[i].op) !in seen)
            && DistinctRows(views)
  {
    if views != [] {
      var view := views[0];
      CheckViewsExact(views[1..], seen[KeyOf(view.op) := view.ref]);
      var rest := views[1..];
      assert forall i | 0 < i < |views| :: views[i] == rest[i - 1];
      assert forall i | 0 <= i < |rest| :: rest[i] == views[i + 1];
    }
  }

  // ----- What a projector sees and may write

  function VisibleStream(s: CommitStream, history: seq<string>): CommitStream
  {
    if history == [] then s.(events := [])
    else if s.entityType in history then s
    else s.(events := [], state := None)
  }

  function VisibleTo(view: CommitView, history: seq<string>): CommitView
  {
    CommitView(if history == [] then "" else view.commitID,
               seq(|view.streams|, i requires 0 <= i < |view.streams| => VisibleStream(view.streams[i], history)))
  }

  predicate WritesTo(view: CommitView, entity: string)
  {
    exists i | 0 <= i < |view.streams| :: view.streams[i].entity == entity
  }

  /** The first stream with the owner's ID decides, as the source's loop does. */
  function OwnedBy(streams: seq<CommitStream>, op: ViewOp, history: seq<string>): bool
  {
    if streams == [] then false
    else if streams[0].entity != op.owner then OwnedBy(streams[1..], op, history)
    else history == [] || streams[0].entityType in history
  }

  predicate OwnerAllowed(view: CommitView, op: ViewOp, history: seq<string>)
  {
    op.owner != "" && OwnedBy(view.streams, op, history)
  }

  lemma {:induction false} OwnerIsWritten(streams: seq<CommitStream>, op: ViewOp, history: seq<string>)
    requires OwnedBy(streams, op, history)
    ensures exists i | 0 <= i < |streams| :: streams[i].entity == op.owner
  {
    if streams[0].entity != op.owner {
      OwnerIsWritten(streams[1..], op, history);
      var i :| 0 <= i < |streams[1..]| && streams[1..][i].entity == op.owner;
      assert streams[i + 1].entity == op.owner;
    }
  }

  /** One projector's operations from number `k` on. */
  function Accept(ops: seq<ViewOp>, view: CommitView, history: seq<string>, projector: nat, k: nat)
    : Result<seq<Projected>, ProjectError>
    requires k <= |ops|
    decreases |ops| - k
  {
    if k == |ops| then Ok([])
    else if !OwnerAllowed(view, ops[k], history) then Err(InvalidOperation(Ref(projector, k)))
    else if ReservedRow(ops[k]) then Err(ReservedViewKey(Ref(projector, k)))
    else
      match Accept(ops, view, history, projector, k + 1)
      case Err(e) => Err(e)
      case Ok(rest) => Ok([Projected(Ref(projector, k), ops[k])] + rest)
  }

  /** The projectors from number `n` on; a nil projector is skipped but keeps its position. */
  function RunProjectors(projectors: seq<Option<Projector>>, view: CommitView, n: nat)
    : Result<seq<Projected>, ProjectError>
    requires n <= |projectors|
    decreases |projectors| - n
  {
    if n == |projectors| then Ok([])
    else if projectors[n].None? then RunProjectors(projectors, view, n + 1)
    else
      var p := projectors[n].value;
      match p.run(VisibleTo(view, p.history))
      case None => Err(ProjectorFailed(n))
      case Some(ops) =>
        match Accept(ops, view, p.history, n, 0)
        case Err(e) => Err(e)
        case Ok(mine) =>
          match RunProjectors(projectors, view, n + 1)
          case Err(e) => Err(e)
          case Ok(rest) => Ok(mine + rest)
  }

  function ProjectCommit(projectors: seq<Option<Projector>>, view: CommitView): Result<seq<Projected>, ProjectError>
  {
    if projectors == [] || ViewEvents(view) == [] then Ok([])
    else
      match RunProjectors(projectors, view, 0)
      case Err(e) => Err(e)
      case Ok(items) =>
        match CheckViews(items, map[])
        case Some(e) => Err(e)
        case None => Ok(items)
  }

  lemma {:induction false} AcceptedAreOwned(
    ops: seq<ViewOp>, view: CommitView, history: seq<string>, projector: nat, k: nat)
    requires k <= |ops| && Accept(ops, view, history, projector, k).Ok?
    ensures forall item | item in Accept(ops, view, history, projector, k).value ::
              WritesTo(view, item.op.owner) && !ReservedRow(item.op)
    decreases |ops| - k
  {
    if k < |ops| {
      OwnerIsWritten(view.streams, ops[k], history);
      AcceptedAreOwned(ops, view, history, projector, k + 1);
    }
  }

  lemma {:induction false} ProjectedAreOwned(projectors: seq<Option<Projector>>, view: CommitView, n: nat)
    requires n <= |projectors| && RunProjectors(projectors, view, n).Ok?
    ensures forall item | item in RunProjectors(projectors, view, n).value ::
              WritesTo(view, item.op.owner) && !ReservedRow(item.op)
    decreases |projectors| - n
  {
    if n < |projectors| {
      ProjectedAreOwned(projectors, view, n + 1);
      if projectors[n].Some? {
        var p := projectors[n].value;
        var ops := p.run(VisibleTo(view, p.history)).value;
        AcceptedAreOwned(ops, view, p.history, n, 0);
      }
    }
  }

  /** Every operation of a commit is sound, names a stream the commit wrote, and has its own row. */
  lemma {:induction false} ProjectionIsSound(projectors: seq<Option<Projector>>, view: CommitView)
    requires ProjectCommit(projectors, view).Ok?
    ensures var items := ProjectCommit(projectors, view).value;
            && DistinctRows(items)
            && forall i | 0 <= i < |items| ::
                 && WritesTo(view, items[i].op.owner) && !ReservedRow(items[i].op)
                 && ValidOp(items[i].op) && Fits(items[i].op)
  {
    if projectors != [] && ViewEvents(view) != [] {
      var items := RunProjectors(projectors, view, 0).value;
      ProjectedAreOwned(projectors, view, 0);
      CheckViewsExact(items, map[]);
      forall i | 0 <= i < |items| ensures WritesTo(view, items[i].op.owner) && !ReservedRow(items[i].op) {
        assert items[i] in items;
      }
    }
  }

  /** A commit that wrote no event runs no projector. */
  lemma {:induction false} NoEventsNoOperations(projectors: seq<Option<Projector>>, view: CommitView)
    requires ViewEvents(view) == []
    ensures ProjectCommit(projectors, view) == Ok([])
  {}

  // ----- Exactly the projectors' operations

  /** What projector `n` returns for the commit; None is its error, and a nil projector returns nothing. */
  function Returned(projectors: seq<Option<Projector>>, view: CommitView, n: nat): Option<seq<ViewOp>>
    requires n < |projectors|
  {
    match projectors[n]
    case None => Some([])
    case Some(p) => p.run(VisibleTo(view, p.history))
  }

  /** The operation is number `k` of projector `n`. */
  predicate Emits(projectors: seq<Option<Projector>>, view: CommitView, n: nat, k: nat, op: ViewOp)
  {
    && n < |projectors| && Returned(projectors, view, n).Some?
    && k < |Returned(projectors, view, n).value| && op == Returned(projectors, view, n).value[k]
  }

  predicate RefLess(a: Ref, b: Ref)
  {
    a.projector < b.projector || (a.projector == b.projector && a.operation < b.operation)
  }

  /** Every operation of the projectors from number `n` on, once, in the order of projectors and operations. */
  ghost predicate ListsAll(projectors: seq<Option<Projector>>, view: CommitView, n: nat, items: seq<Projected>)
  {
    && (forall i | 0 <= i < |items| ::
          n <= items[i].ref.projector
          && Emits(projectors, view, items[i].ref.projector, items[i].ref.operation, items[i].op))
    && (forall i, j | 0 <= i < j < |items| :: RefLess(items[i].ref, items[j].ref))
    && (forall m: nat, k: nat, op | n <= m && Emits(projectors, view, m, k, op) :: Projected(Ref(m, k), op) in items)
  }

  /** The owner is a stream the commit wrote, and its first one with that ID is of a type the projector declares. */
  ghost predicate OwnerDeclared(view: CommitView, owner: string, history: seq<string>)
  {
    exists i | 0 <= i < |view.streams| ::
      && view.streams[i].entity == owner && (forall j | 0 <= j < i :: view.streams[j].entity != owner)
      && (history == [] || view.streams[i].entityType in history)
  }

  lemma {:induction false} OwnedExactly(streams: seq<CommitStream>, op: ViewOp, history: seq<string>)
    ensures OwnedBy(streams, op, history) <==>
            exists i | 0 <= i < |streams| ::
              && streams[i].entity == op.owner && (forall j | 0 <= j < i :: streams[j].entity != op.owner)
              && (history == [] || streams[i].entityType in history)
  {
    if streams != [] && streams[0].entity != op.owner {
      var rest := streams[1..];
      OwnedExactly(rest, op, history);
      if OwnedBy(rest, op, history) {
        var i :| 0 <= i < |rest| && rest[i].entity == op.owner && (forall j | 0 <= j < i :: rest[j].entity != op.owner)
                 && (history == [] || rest[i].entityType in history);
        forall j | 0 <= j < i + 1 ensures streams[j].entity != op.owner {
          if j > 0 { assert streams[j] == rest[j - 1]; }
        }
        assert streams[i + 1] == rest[i];
      }
      if i :| 0 <= i < |streams| && streams[i].entity == op.owner
              && (forall j | 0 <= j < i :: streams[j].entity != op.owner)
              && (history == [] || streams[i].entityType in history) {
        assert rest[i - 1] == streams[i];
        forall j | 0 <= j < i - 1 ensures rest[j].entity != op.owner { assert rest[j] == streams[j + 1]; }
      }
    }
  }

  /** What is asked of one operation before it is checked with the others. */
  ghost predicate Acceptable(view: CommitView, op: ViewOp, history: seq<string>)
  {
    op.owner != "" && OwnerDeclared(view, op.owner, history) && !ReservedRow(op)
  }

  lemma {:induction false} AcceptExactly(
    ops: seq<ViewOp>, view: CommitView, history: seq<string>, projector: nat, k: nat)
    requires k <= |ops|
    ensures var r := Accept(ops, view, history, projector, k);
            && (r.Ok? <==> forall i | k <= i < |ops| :: Acceptable(view, ops[i], history))
            && (r.Ok? ==> |r.value| == |ops| - k
                          && forall i | k <= i < |ops| :: r.value[i - k] == Projected(Ref(projector, i), ops[i]))
    decreases |ops| - k
  {
    if k < |ops| {
      AcceptExactly(ops, view, history, projector, k + 1);
      OwnedExactly(view.streams, ops[k], history);
    }
  }

  function HistoryOf(projectors: seq<Option<Projector>>, n: nat): seq<string>
    requires n < |projectors|
  {
    match projectors[n]
    case None => []
    case Some(p) => p.history
  }

  /** Every projector from number `n` on succeeds with acceptable operations. */
  ghost predicate AllAcceptable(projectors: seq<Option<Projector>>, view: CommitView, n: nat)
  {
    && (forall m: nat | n <= m < |projectors| :: Returned(projectors, view, m).Some?)
    && (forall m: nat, k: nat, op | n <= m && Emits(projectors, view, m, k, op) ::
          Acceptable(view, op, HistoryOf(projectors, m)))
  }

  lemma {:induction false} ListsOneMore(
    projectors: seq<Option<Projector>>, view: CommitView, n: nat, mine: seq<Projected>, rest: seq<Projected>)
    requires n < |projectors| && Returned(projectors, view, n).Some? && ListsAll(projectors, view, n + 1, rest)
    requires var ops := Returned(projectors, view, n).value;
             |mine| == |ops| && forall i | 0 <= i < |ops| :: mine[i] == Projected(Ref(n, i), ops[i])
    ensures ListsAll(projectors, view, n, mine + rest)
  {
    var all := mine + rest;
    forall m: nat, k: nat, op | n <= m && Emits(projectors, view, m, k, op) ensures Projected(Ref(m, k), op) in all {
      if m == n {
        assert all[k] == mine[k] == Projected(Ref(n, k), op);
      } else {
        assert Projected(Ref(m, k), op) in rest;
      }
    }
    forall i | 0 <= i < |all|
      ensures n <= all[i].ref.projector
              && Emits(projectors, view, all[i].ref.projector, all[i].ref.operation, all[i].op)
    {
      if i >= |mine| { assert all[i] == rest[i - |mine|]; } else { assert all[i] == mine[i]; }
    }
  }

  lemma {:induction false} AcceptableFrom(projectors: seq<Option<Projector>>, view: CommitView, n: nat)
    requires n < |projectors|
    ensures AllAcceptable(projectors, view, n) <==>
            && Returned(projectors, view, n).Some? && AllAcceptable(projectors, view, n + 1)
            && var ops := Returned(projectors, view, n).value;
               forall i | 0 <= i < |ops| :: Acceptable(view, ops[i], HistoryOf(projectors, n))
  {
    if AllAcceptable(projectors, view, n) {
      var ops := Returned(projectors, view, n).value;
      forall i | 0 <= i < |ops| ensures Acceptable(view, ops[i], HistoryOf(projectors, n)) {
        assert Emits(projectors, view, n, i, ops[i]);
      }
    }
  }

  lemma {:induction false} RunExactly(projectors: seq<Option<Projector>>, view: CommitView, n: nat)
    requires n <= |projectors|
    ensures RunProjectors(projectors, view, n).Ok? <==> AllAcceptable(projectors, view, n)
    ensures RunProjectors(projectors, view, n).Ok? ==>
              ListsAll(projectors, view, n, RunProjectors(projectors, view, n).value)
    decreases |projectors| - n
  {
    if n < |projectors| {
      RunExactly(projectors, view, n + 1);
      AcceptableFrom(projectors, view, n);
      var rest := RunProjectors(projectors, view, n + 1);
      if projectors[n].None? {
        if rest.Ok? {
          ListsOneMore(projectors, view, n, [], rest.value);
          assert [] + rest.value == rest.value;
        }
      } else if Returned(projectors, view, n).Some? {
        var p, ops := projectors[n].value, Returned(projectors, view, n).value;
        AcceptExactly(ops, view, p.history, n, 0);
        var mine := Accept(ops, view, p.history, n, 0);
        if mine.Ok? && rest.Ok? { ListsOneMore(projectors, view, n, mine.value, rest.value); }
      }
    }
  }

  /**
    A commit with events projects exactly when every projector succeeds, every operation is sound
    and owned by a stream the commit wrote and the projector declares, and no two are on one row;
    and then to every operation of every projector, once and in their order.
   */
  lemma {:induction false} ProjectionIsExact(projectors: seq<Option<Projector>>, view: CommitView)
    requires ViewEvents(view) != []
    ensures ProjectCommit(projectors, view).Ok? <==>
            && AllAcceptable(projectors, view, 0)
            && (forall m: nat, k: nat, op | Emits(projectors, view, m, k, op) :: ValidOp(op) && Fits(op))
            && (forall m: nat, k: nat, op, m': nat, k': nat, op' |
                  && Emits(projectors, view, m, k, op) && Emits(projectors, view, m', k', op')
                  && KeyOf(op) == KeyOf(op') ::
                  m == m' && k == k')
    ensures ProjectCommit(projectors, view).Ok? ==>
              ListsAll(projectors, view, 0, ProjectCommit(projectors, view).value)
  {
    RunExactly(projectors, view, 0);
    if RunProjectors(projectors, view, 0).Ok? {
      var items := RunProjectors(projectors, view, 0).value;
      CheckViewsExact(items, map[]);
      AllChecked(projectors, view, items);
    }
  }

  lemma {:induction false} AllChecked(projectors: seq<Option<Projector>>, view: CommitView, items: seq<Projected>)
    requires ListsAll(projectors, view, 0, items)
    ensures (forall i | 0 <= i < |items| :: ValidOp(items[i].op) && Fits(items[i].op)) <==>
            forall m: nat, k: nat, op | Emits(projectors, view, m, k, op) :: ValidOp(op) && Fits(op)
    ensures DistinctRows(items) <==>
            forall m: nat, k: nat, op, m': nat, k': nat, op' |
              Emits(projectors, view, m, k, op) && Emits(projectors, view, m', k', op') && KeyOf(op) == KeyOf(op') ::
              m == m' && k == k'
  {
    forall m: nat, k: nat, op | Emits(projectors, view, m, k, op) ensures Projected(Ref(m, k), op) in items {}
    if DistinctRows(items) {
      forall m: nat, k: nat, op, m': nat, k': nat, op' |
        Emits(projectors, view, m, k, op) && Emits(projectors, view, m', k', op') && KeyOf(op) == KeyOf(op')
        ensures m == m' && k == k'
      {
        var i :| 0 <= i < |items| && items[i] == Projected(Ref(m, k), op);
        var j :| 0 <= j < |items| && items[j] == Projected(Ref(m', k'), op');
      }
    } else {
      var i, j :| 0 <= i < j < |items| && KeyOf(items[i].op) == KeyOf(items[j].op);
      assert RefLess(items[i].ref, items[j].ref);
      assert Emits(projectors, view, items[i].ref.projector, items[i].ref.operation, items[i].op);
    }
  }

  /** Each error names what is wrong: a projector that failed, an operation at fault, or two on one row. */
  ghost predicate Explains(projectors: seq<Option<Projector>>, view: CommitView, e: ProjectError)
  {
    match e
    case ProjectorFailed(n) => n < |projectors| && Returned(projectors, view, n).None?
    case InvalidOperation(ref) =>
      exists op ::
        && Emits(projectors, view, ref.projector, ref.operation, op)
        && (op.owner == "" || !OwnerDeclared(view, op.owner, HistoryOf(projectors, ref.projector)) || !ValidOp(op))
    case ReservedViewKey(ref) =>
      exists op :: Emits(projectors, view, ref.projector, ref.operation, op) && ReservedRow(op)
    case ViewKeyTooLong(ref) => exists op :: Emits(projectors, view, ref.projector, ref.operation, op) && !Fits(op)
    case DuplicateViewKey(a, b) =>
      && RefLess(a, b)
      && exists op, op' ::
           && Emits(projectors, view, a.projector, a.operation, op)
           && Emits(projectors, view, b.projector, b.operation, op') && KeyOf(op) == KeyOf(op')
  }

  lemma {:induction false} AcceptExplains(
    projectors: seq<Option<Projector>>, view: CommitView, n: nat, ops: seq<ViewOp>, k: nat)
    requires n < |projectors| && projectors[n].Some? && Returned(projectors, view, n) == Some(ops) && k <= |ops|
    ensures var r := Accept(ops, view, projectors[n].value.history, n, k);
            r.Err? ==> Explains(projectors, view, r.error)
    decreases |ops| - k
  {
    if k < |ops| {
      AcceptExplains(projectors, view, n, ops, k + 1);
      OwnedExactly(view.streams, ops[k], projectors[n].value.history);
      assert Emits(projectors, view, n, k, ops[k]);
    }
  }

  lemma {:induction false} RunExplains(projectors: seq<Option<Projector>>, view: CommitView, n: nat)
    requires n <= |projectors|
    ensures var r := RunProjectors(projectors, view, n); r.Err? ==> Explains(projectors, view, r.error)
    decreases |projectors| - n
  {
    if n < |projectors| {
      RunExplains(projectors, view, n + 1);
      if projectors[n].Some? && Returned(projectors, view, n).Some? {
        AcceptExplains(projectors, view, n, Returned(projectors, view, n).value, 0);
      }
    }
  }

  /** The rows seen so far are those of the first `k` items, each with the item that targets it. */
  ghost predicate SeenAre(items: seq<Projected>, k: nat, seen: map<RowKey, Ref>)
  {
    forall key | key in seen ::
      exists i | 0 <= i < k && i < |items| :: KeyOf(items[i].op) == key && items[i].ref == seen[key]
  }

  lemma {:induction false} CheckExplains(
    projectors: seq<Option<Projector>>, view: CommitView, items: seq<Projected>, k: nat, seen: map<RowKey, Ref>)
    requires ListsAll(projectors, view, 0, items) && k <= |items| && SeenAre(items, k, seen)
    ensures var e := CheckViews(items[k..], seen); e.Some? ==> Explains(projectors, view, e.value)
    decreases |items| - k
  {
    if k < |items| {
      var item := items[k];
      assert items[k..][0] == item && items[k..][1..] == items[k + 1..];
      assert Emits(projectors, view, item.ref.projector, item.ref.operation, item.op);
      if KeyOf(item.op) in seen {
        var i :| 0 <= i < k && KeyOf(items[i].op) == KeyOf(item.op) && items[i].ref == seen[KeyOf(item.op)];
        assert Emits(projectors, view, items[i].ref.projector, items[i].ref.operation, items[i].op);
      } else {
        SeenOneMore(items, k, seen);
        CheckExplains(projectors, view, items, k + 1, seen[KeyOf(item.op) := item.ref]);
      }
    }
  }

  lemma {:induction false} SeenOneMore(items: seq<Projected>, k: nat, seen: map<RowKey, Ref>)
    requires k < |items| && SeenAre(items, k, seen)
    ensures SeenAre(items, k + 1, seen[KeyOf(items[k].op) := items[k].ref])
  {
    var next := seen[KeyOf(items[k].op) := items[k].ref];
    forall key | key in next
      ensures exists i | 0 <= i < k + 1 && i < |items| :: KeyOf(items[i].op) == key && items[i].ref == next[key]
    {
      if key == KeyOf(items[k].op) {
        assert items[k].ref == next[key];
      } else {
        var i :| 0 <= i < k && i < |items| && KeyOf(items[i].op) == key && items[i].ref == seen[key];
        assert items[i].ref == next[key];
      }
    }
  }

  /** A commit that does not project is told why. */
  lemma {:induction false} ProjectionErrorIsReal(projectors: seq<Option<Projector>>, view: CommitView)
    requires ProjectCommit(projectors, view).Err?
    ensures Explains(projectors, view, ProjectCommit(projectors, view).error)
  {
    RunExactly(projectors, view, 0);
    RunExplains(projectors, view, 0);
    if RunProjectors(projectors, view, 0).Ok? {
      var items := RunProjectors(projectors, view, 0).value;
      CheckExplains(projectors, view, items, 0, map[]);
      assert items[0..] == items;
    }
  }

  // ----- What a projector can tell apart

  /** The views give a projector of this kind the same to go by. */
  predicate LookAlike(a: CommitView, b: CommitView, history: seq<string>)
  {
    && |a.streams| == |b.streams| && (history != [] ==> a.commitID == b.commitID)
    && forall i | 0 <= i < |a.streams| ::
         && a.streams[i].entity == b.streams[i].entity && a.streams[i].entityType == b.streams[i].entityType
         && (history == [] ==> a.streams[i].state == b.streams[i].state)
         && (a.streams[i].entityType in history ==> a.streams[i] == b.streams[i])
  }

  /**
    A projector is shown exactly what its kind may see: two views are shown as the same exactly
    when they agree on it, and what is shown agrees with the view itself.
   */
  lemma {:induction false} ShownExactly(a: CommitView, b: CommitView, history: seq<string>)
    ensures VisibleTo(a, history) == VisibleTo(b, history) <==> LookAlike(a, b, history)
    ensures LookAlike(a, VisibleTo(a, history), history)
    ensures history == [] ==> ViewEvents(VisibleTo(a, history)) == []
  {
    var x, y := VisibleTo(a, history), VisibleTo(b, history);
    if x == y {
      forall i | 0 <= i < |a.streams|
        ensures a.streams[i].entity == b.streams[i].entity && a.streams[i].entityType == b.streams[i].entityType
                && (history == [] ==> a.streams[i].state == b.streams[i].state)
                && (a.streams[i].entityType in history ==> a.streams[i] == b.streams[i])
      {
        assert x.streams[i] == y.streams[i];
      }
    }
    if LookAlike(a, b, history) { assert x.streams == y.streams; }
    if history == [] { NoEventsShown(x.streams); }
  }

  lemma {:induction false} NoEventsShown(streams: seq<CommitStream>)
    requires forall i | 0 <= i < |streams| :: streams[i].events == []
    ensures StreamEvents(streams) == []
  {
    if streams != [] { NoEventsShown(streams[..|streams| - 1]); }
  }
}
