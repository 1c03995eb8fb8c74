/**
  What a transaction's commit holds, item by item, and that the canonicalizer takes it: the events
  and snapshots are given by what was loaded and appended, and the commit is well formed exactly
  when the caller's part of it is.
 */
module TxRules {
  import opened Basics
  import opened Sequences
  import opened Order
  import opened CommitLog
  import opened Commit
  import opened Load
  import opened Transaction

  // ----- The items

  /** Fact number `i` appended to a stream, as an event of the commit. */
  function EventAt(id: string, s: TxStream, i: nat, metadata: Metadata): Event
    requires i < |s.pending|
  {
    var sequence := s.loaded.head + i + 1;
    Event(id + ":" + FormatInt(sequence), id, s.pending[i].entityType, sequence, s.pending[i].payload, metadata)
  }

  /** A commit that takes effect holds an event for each appended fact, numbered on from the loaded head. */
  lemma {:induction false} EventsExactly(
    d: Option<Decision>, order: seq<string>, streams: map<string, TxStream>, fences: seq<Fence>,
    expected: map<string, int>, metadata: Metadata, interval: Interval, staleCode: string, id: string)
    requires Lists(order, streams)
    ensures var stream := Stream(Ended(d, order, streams, fences, expected, metadata, interval, staleCode).events, id);
            if id in streams && Effective(d, ExpectationsMet(streams, expected)) then
              && |stream| == |streams[id].pending|
              && forall i | 0 <= i < |stream| :: stream[i] == EventAt(id, streams[id], i, metadata)
            else stream == []
  {
    EndedParts(d, order, streams, fences, expected, metadata, interval, staleCode);
    StreamOfFlat(streams, metadata, order, id);
  }

  /** The stream's batch reaches or passes a multiple of its type's interval, and the snapshot is small enough. */
  predicate Due(id: string, s: TxStream, interval: Interval)
  {
    var size := if s.entityType in interval.overrides then interval.overrides[s.entityType] else interval.size;
    && s.loaded.head >= 0 && size > 0
    && s.loaded.head / size < (s.loaded.head + |s.pending|) / size
    && interval.fits(SnapshotAt(id, s))
  }

  /** The stream's snapshot: the next one after the loaded one, of its state with everything appended. */
  function SnapshotAt(id: string, s: TxStream): Snapshot
  {
    Snapshot(id, s.entityType, s.loaded.snapshot + 1, s.loaded.head + |s.pending|, s.state)
  }

  lemma {:induction false} DueExactly(id: string, s: TxStream, interval: Interval)
    ensures TakesSnapshot(s, id, interval) <==> Due(id, s, interval)
  {
    var size := interval.SizeOf(s.entityType);
    if s.loaded.head >= 0 && size > 0 { SnapshotsAtMultiples(s.loaded.head, |s.pending|, size); }
  }

  /** A commit that takes effect holds exactly the snapshots that are due. */
  lemma {:induction false} SnapshotsExactly(
    d: Option<Decision>, order: seq<string>, streams: map<string, TxStream>, fences: seq<Fence>,
    expected: map<string, int>, metadata: Metadata, interval: Interval, staleCode: string, s: Snapshot)
    requires Lists(order, streams)
    ensures s in Ended(d, order, streams, fences, expected, metadata, interval, staleCode).snapshots <==>
            && Effective(d, ExpectationsMet(streams, expected))
            && s.entity in streams && Due(s.entity, streams[s.entity], interval)
            && s == SnapshotAt(s.entity, streams[s.entity])
  {
    EndedParts(d, order, streams, fences, expected, metadata, interval, staleCode);
    FlatMapMember(SnapshotsOf(streams, interval), order, s);
    if s.entity in streams {
      DueExactly(s.entity, streams[s.entity], interval);
      assert s.entity in order;
    }
  }

  // ----- Well-formed commits

  /** What reading and appending give: a head and a snapshot from a load, facts of the stream's type, room to count. */
  predicate Sane(s: TxStream)
  {
    && 0 <= s.loaded.head && s.loaded.head + |s.pending| < MAX_INT && 0 <= s.loaded.snapshot
    && forall i | 0 <= i < |s.pending| :: s.pending[i].entityType == s.entityType
  }

  predicate AllSane(streams: map<string, TxStream>)
  {
    forall id | id in streams :: Sane(streams[id])
  }

  lemma {:induction false} SerializedOK(id: string, s: TxStream, metadata: Metadata, recorded: bool)
    requires Sane(s)
    ensures StreamOK(Serialized(id, s.loaded.head, s.pending, metadata), recorded) <==>
            s.pending == [] || !Reserved(id)
  {
    var stream := Serialized(id, s.loaded.head, s.pending, metadata);
    forall i | 0 <= i < |stream| ensures EventOK(stream[i], recorded) <==> !Reserved(id) {}
    forall i | 0 < i < |stream| ensures Follows(stream[i - 1], stream[i]) {}
    if s.pending != [] { assert EventOK(stream[0], recorded) <==> !Reserved(id); }
  }

  /** Distinct singletons, one for each ID of a list without repeats, stay distinct. */
  lemma {:induction false} OneEachIsDistinct<T>(f: string -> seq<T>, key: T -> Key, order: seq<string>)
    requires NoRepeats(order)
    requires forall id | id in order :: |f(id)| <= 1 && forall x | x in f(id) :: key(x) == (id, "", 0)
    ensures DistinctKeys(FlatMap(f, order), key)
  {
    if order != [] {
      var front, id := order[..|order| - 1], order[|order| - 1];
      OneEachIsDistinct(f, key, front);
      forall x | x in FlatMap(f, front) ensures key(x) != (id, "", 0) {
        FlatMapMember(f, front, x);
      }
    }
  }

  lemma {:induction false} SnapshotsAreWellFormed(
    order: seq<string>, streams: map<string, TxStream>, metadata: Metadata, interval: Interval)
    requires Lists(order, streams) && AllSane(streams)
    ensures SnapshotsOK(FlatMap(SnapshotsOf(streams, interval), order), FlatMap(EventsOf(streams, metadata), order))
  {
    var f := SnapshotsOf(streams, interval);
    var snapshots := FlatMap(f, order);
    OneEachIsDistinct(f, SnapshotKey, order);
    forall i | 0 <= i < |snapshots|
      ensures Covers(snapshots[i], Stream(FlatMap(EventsOf(streams, metadata), order), snapshots[i].entity))
    {
      var s := snapshots[i];
      FlatMapMember(f, order, s);
      StreamOfFlat(streams, metadata, order, s.entity);
      CapturedCovers(s.entity, streams[s.entity], metadata, interval);
    }
  }

  lemma {:induction false} CapturedCovers(id: string, s: TxStream, metadata: Metadata, interval: Interval)
    requires Sane(s) && TakesSnapshot(s, id, interval)
    ensures Covers(Captured(id, s), Serialized(id, s.loaded.head, s.pending, metadata))
  {}

  /** The caller's fences of unread streams are acceptable, and no stream has two. */
  predicate CallerFencesOK(fences: seq<Fence>, streams: map<string, TxStream>)
  {
    && (forall i | 0 <= i < |fences| && fences[i].entity !in streams :: FenceOK(fences[i]))
    && (forall i, j | 0 <= i < j < |fences| && fences[i].entity == fences[j].entity :: fences[i].entity in streams)
  }

  lemma {:induction false} KeptExactly(fences: seq<Fence>, streams: map<string, TxStream>)
    ensures FencesOK(Filter(Unread(streams), fences)) <==> CallerFencesOK(fences, streams)
  {
    if fences != [] {
      var front, f := fences[..|fences| - 1], fences[|fences| - 1];
      KeptExactly(front, streams);
      OneMoreKept(front, f, streams);
      assert fences == front + [f];
    }
  }

  lemma {:induction false} OneMoreKept(front: seq<Fence>, f: Fence, streams: map<string, TxStream>)
    requires FencesOK(Filter(Unread(streams), front)) <==> CallerFencesOK(front, streams)
    ensures FencesOK(Filter(Unread(streams), front + [f])) <==> CallerFencesOK(front + [f], streams)
  {
    var kept := Filter(Unread(streams), front);
    forall g ensures g in kept <==> g in front && g.entity !in streams { FilterMember(Unread(streams), front, g); }
    FilterSnoc(Unread(streams), front, f);
    OneMoreCaller(front, f, streams, kept);
    if f.entity in streams {
      assert kept + [] == kept;
    } else {
      OneMoreFence(kept, f);
    }
  }

  function NamesOf(fences: seq<Fence>): set<string> { set f | f in fences :: f.entity }

  lemma {:induction false} OneMoreFence(fences: seq<Fence>, f: Fence)
    ensures FencesOK(fences + [f]) <==> FencesOK(fences) && FenceOK(f) && f.entity !in NamesOf(fences)
  {
    var all := fences + [f];
    assert all[|fences|] == f && forall i | 0 <= i < |fences| :: all[i] == fences[i];
    if FencesOK(all) {
      assert DistinctKeys(fences, FenceKey);
      forall g | g in fences ensures g.entity != f.entity {
        var i :| 0 <= i < |fences| && fences[i] == g;
        assert FenceKey(all[i]) != FenceKey(all[|fences|]);
      }
      forall i | 0 <= i < |fences| ensures FenceOK(fences[i]) { assert FenceOK(all[i]); }
    }
    if FencesOK(fences) && FenceOK(f) && f.entity !in NamesOf(fences) {
      forall i, j | 0 <= i < j < |all| ensures FenceKey(all[i]) != FenceKey(all[j]) {
        if j == |fences| { assert fences[i] in fences && fences[i].entity in NamesOf(fences); }
      }
    }
  }

  lemma {:induction false} OneMoreCaller(
    front: seq<Fence>, f: Fence, streams: map<string, TxStream>, kept: seq<Fence>)
    requires forall g :: g in kept <==> g in front && g.entity !in streams
    ensures CallerFencesOK(front + [f], streams) <==>
            CallerFencesOK(front, streams) && (f.entity !in streams ==> FenceOK(f) && f.entity !in NamesOf(kept))
  {
    var all := front + [f];
    assert all[|front|] == f && forall i | 0 <= i < |front| :: all[i] == front[i];
    if CallerFencesOK(all, streams) {
      forall i, j | 0 <= i < j < |front| && front[i].entity == front[j].entity ensures front[i].entity in streams {
        assert all[i] == front[i] && all[j] == front[j];
      }
      if f.entity !in streams {
        forall g | g in kept ensures g.entity != f.entity {
          var i :| 0 <= i < |front| && front[i] == g;
          assert all[i] == g;
        }
      }
    }
    if CallerFencesOK(front, streams) && (f.entity !in streams ==> FenceOK(f) && f.entity !in NamesOf(kept)) {
      forall i | 0 <= i < |front| && f.entity !in streams ensures front[i].entity != f.entity {
        assert front[i] in front;
        if front[i].entity !in streams { assert front[i].entity in NamesOf(kept); }
      }
      forall i, j | 0 <= i < j < |all| && all[i].entity == all[j].entity ensures all[i].entity in streams {}
    }
  }

  /** The engine's fences beside the caller's. */
  lemma {:induction false} AllFencesOK(
    order: seq<string>, streams: map<string, TxStream>, kept: seq<Fence>, engine: seq<Fence>)
    requires forall f | f in kept :: f.entity !in streams
    requires forall f | f in engine :: f.entity in streams
    requires DistinctKeys(engine, FenceKey)
    ensures FencesOK(kept + engine) <==> FencesOK(kept) && forall f | f in engine :: FenceOK(f)
  {
    var all := kept + engine;
    assert forall i | 0 <= i < |kept| :: all[i] == kept[i];
    assert forall i | 0 <= i < |engine| :: all[|kept| + i] == engine[i];
    if FencesOK(all) {
      forall i, j | 0 <= i < j < |kept| ensures FenceKey(kept[i]) != FenceKey(kept[j]) {
        assert FenceKey(all[i]) != FenceKey(all[j]);
      }
      forall i | 0 <= i < |kept| ensures FenceOK(kept[i]) { assert FenceOK(all[i]); }
      forall f | f in engine ensures FenceOK(f) {
        var i :| 0 <= i < |engine| && engine[i] == f;
        assert FenceOK(all[|kept| + i]);
      }
    }
    if FencesOK(kept) && forall f | f in engine :: FenceOK(f) {
      forall i, j | 0 <= i < j < |all| ensures FenceKey(all[i]) != FenceKey(all[j]) {
        if i >= |kept| {
          assert FenceKey(engine[i - |kept|]) != FenceKey(engine[j - |kept|]);
        } else if j >= |kept| {
          assert kept[i] in kept && engine[j - |kept|] in engine;
        }
      }
    }
  }

  lemma {:induction false} EngineFencesOK(order: seq<string>, streams: map<string, TxStream>, write: bool)
    requires Lists(order, streams) && AllSane(streams)
    ensures var engine := FlatMap(FencesOf(streams, write), order);
            && DistinctKeys(engine, FenceKey) && (forall f | f in engine :: f.entity in streams)
            && ((forall f | f in engine :: FenceOK(f)) <==>
                forall id | id in streams && !(write && streams[id].pending != []) :: !Reserved(id))
  {
    var f := FencesOf(streams, write);
    var engine := FlatMap(f, order);
    OneEachIsDistinct(f, FenceKey, order);
    forall x | x in engine
      ensures x.entity in streams && !(write && streams[x.entity].pending != [])
              && x == EngineFence(x.entity, streams[x.entity])
    {
      FlatMapMember(f, order, x);
    }
    forall id | id in streams && !(write && streams[id].pending != []) ensures EngineFence(id, streams[id]) in engine {
      EngineFenceIsThere(order, streams, write, id);
    }
  }

  lemma {:induction false} EventsAreWellFormed(
    order: seq<string>, streams: map<string, TxStream>, metadata: Metadata, recorded: bool)
    requires Lists(order, streams) && AllSane(streams)
    ensures StreamsOK(FlatMap(EventsOf(streams, metadata), order), recorded) <==>
            forall id | id in streams && streams[id].pending != [] :: !Reserved(id)
  {
    var events := FlatMap(EventsOf(streams, metadata), order);
    forall id ensures StreamOK(Stream(events, id), recorded) <==>
                      (id in streams && streams[id].pending != [] ==> !Reserved(id))
    {
      StreamOfFlat(streams, metadata, order, id);
      if id in streams { SerializedOK(id, streams[id], metadata, recorded); }
    }
  }

  lemma {:induction false} NothingIsWellFormed(recorded: bool)
    ensures StreamsOK([], recorded) && SnapshotsOK([], [])
  {
    forall entity ensures StreamOK(Stream([], entity), recorded) {}
  }

  /**
    The canonicalizer takes a transaction's commit exactly when no stream read is reserved, the
    caller's fences of other streams are acceptable and unrepeated, and a recorded outcome and
    its texts can be stored.
   */
  lemma {:induction false} WellFormedExactly(
    d: Option<Decision>, order: seq<string>, streams: map<string, TxStream>, fences: seq<Fence>,
    expected: map<string, int>, metadata: Metadata, interval: Interval, staleCode: string)
    requires Lists(order, streams) && AllSane(streams)
    ensures var r := Ended(d, order, streams, fences, expected, metadata, interval, staleCode);
            WellFormed(r) <==>
            && (forall id | id in streams :: !Reserved(id))
            && CallerFencesOK(fences, streams)
            && (r.outcome.Some? ==> OutcomeOK(r.outcome.value) && TextOK(r))
  {
    var r := Ended(d, order, streams, fences, expected, metadata, interval, staleCode);
    var write := Effective(d, ExpectationsMet(streams, expected));
    var kept, engine := Filter(Unread(streams), fences), FlatMap(FencesOf(streams, write), order);
    EndedParts(d, order, streams, fences, expected, metadata, interval, staleCode);
    EngineFencesOK(order, streams, write);
    KeptExactly(fences, streams);
    forall f | f in kept ensures f.entity !in streams { FilterMember(Unread(streams), fences, f); }
    AllFencesOK(order, streams, kept, engine);
    NothingIsWellFormed(r.outcome.Some?);
    if write {
      EventsAreWellFormed(order, streams, metadata, r.outcome.Some?);
      SnapshotsAreWellFormed(order, streams, metadata, interval);
    }
    assert Prechecked(r) <==> (r.outcome.Some? ==> OutcomeOK(r.outcome.value) && TextOK(r));
  }
}
