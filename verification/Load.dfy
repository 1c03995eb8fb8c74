/**
  Loading an aggregate: the snapshot is read first and the stored events after it later, with
  any number of commits, catch-up snapshots and compactions of other writers in between.
 */
module Load {
  import opened Basics
  import opened Sequences
  import opened Order
  import opened CommitLog
  import opened Commit
  import opened StreamStore

  /** A loaded stream: its head, the sequence of its snapshot, its state, and the commands seen. */
  datatype Loaded = Loaded(head: int, snapshot: int, state: string, seen: set<string>)

  datatype LoadResult =
    | Found(loaded: Loaded)
    | SequenceGap(after: int, found: int)
    | Refused                                // the aggregate refused an event

  function After(sequence: int): Event -> bool
  {
    (e: Event) => e.sequence > sequence
  }

  /** The stored events a load reads: those after the snapshot, or all without one. */
  function Latest(snapshot: Option<Snapshot>, log: seq<Event>): seq<Event>
  {
    if snapshot.Some? then Filter(After(snapshot.value.eventSequence), log) else log
  }

  function CommandOf(e: Event): set<string>
  {
    if e.metadata.commandID.Some? && e.metadata.commandID.value != "" then {e.metadata.commandID.value} else {}
  }

  function Commands(events: seq<Event>): set<string>
  {
    if events == [] then {} else Commands(events[..|events| - 1]) + CommandOf(events[|events| - 1])
  }

  lemma {:induction false} CommandsSnoc(events: seq<Event>, k: nat)
    requires k < |events|
    ensures Commands(events[..k + 1]) == Commands(events[..k]) + CommandOf(events[k])
  {
    assert events[..k + 1][..k] == events[..k];
  }

  /** A command is seen exactly when it has an ID that one of the events carries. */
  lemma {:induction false} CommandsExactly(events: seq<Event>, command: string)
    ensures command in Commands(events) <==>
            command != "" && exists i | 0 <= i < |events| :: events[i].metadata.commandID == Some(command)
  {
    if events != [] {
      var front := events[..|events| - 1];
      CommandsExactly(front, command);
      assert events == front + [events[|events| - 1]];
    }
  }

  // ----- The gap check

  /** The first `k` events continue the history from `base`. */
  predicate Continuing(h: seq<Event>, base: int, events: seq<Event>, k: nat)
  {
    0 <= base && k <= |events| && base + k <= |h| && events[..k] == h[base..base + k]
  }

  predicate Belongs(h: seq<Event>, e: Event)
  {
    1 <= e.sequence <= |h| && e == h[e.sequence - 1]
  }

  lemma {:induction false} ContinuingStep(h: seq<Event>, base: nat, events: seq<Event>, k: nat)
    requires Continuing(h, base, events, k) && k < |events| && Belongs(h, events[k])
    requires forall i | 0 <= i < |h| :: h[i].sequence == i + 1
    ensures events[k].sequence == base + k + 1 <==> Continuing(h, base, events, k + 1)
    ensures events[k].sequence == base + k + 1 ==> events[k] == h[base + k]
  {
    if Continuing(h, base, events, k + 1) {
      assert events[k] == events[..k + 1][k] == h[base..base + k + 1][k] == h[base + k];
    }
    if events[k].sequence == base + k + 1 {
      assert events[..k + 1] == events[..k] + [events[k]];
      assert h[base..base + k + 1] == h[base..base + k] + [h[base + k]];
    }
  }

  lemma {:induction false} ContinuingPrefix(h: seq<Event>, base: nat, events: seq<Event>, k: nat, n: nat)
    requires k <= n
    ensures Continuing(h, base, events, n) ==> Continuing(h, base, events, k)
  {
    if Continuing(h, base, events, n) {
      assert events[..k] == events[..n][..k] && h[base..base + k] == h[base..base + n][..k];
    }
  }

  lemma {:induction false} FoldFails(m: Machine, id: string, h: seq<Event>, k: nat, n: nat)
    requires k <= n <= |h| && Fold(m, id, h[..k]).None?
    ensures Fold(m, id, h[..n]).None?
  {
    if k < n {
      FoldFails(m, id, h, k, n - 1);
      FoldSnoc(m, id, h, n - 1);
    }
  }

  /** After `k` events: they continue the history, and the state and commands are theirs. */
  predicate AppliedTo(
    m: Machine, id: string, h: seq<Event>, base: nat, events: seq<Event>, k: nat, state: string, seen: set<string>)
  {
    Continuing(h, base, events, k) && Fold(m, id, h[..base + k]) == Some(state) && seen == Commands(events[..k])
  }

  /** All events can be applied. */
  predicate Applicable(m: Machine, id: string, h: seq<Event>, base: int, events: seq<Event>)
  {
    Continuing(h, base, events, |events|) && Fold(m, id, h[..base + |events|]).Some?
  }

  lemma {:induction false} AppliedOneMore(
    m: Machine, id: string, h: seq<Event>, base: nat, events: seq<Event>, k: nat, state: string, seen: set<string>,
    next: string)
    requires AppliedTo(m, id, h, base, events, k, state, seen) && k < |events| && Continuing(h, base, events, k + 1)
    requires events[k] == h[base + k] && m.apply(state, FactOf(events[k])) == Some(next)
    ensures AppliedTo(m, id, h, base, events, k + 1, next, seen + CommandOf(events[k]))
  {
    CommandsSnoc(events, k);
    FoldSnoc(m, id, h, base + k);
  }

  lemma {:induction false} RefusedIsFinal(
    m: Machine, id: string, h: seq<Event>, base: nat, events: seq<Event>, k: nat, state: string)
    requires k < |events| && Continuing(h, base, events, k + 1) && Fold(m, id, h[..base + k]) == Some(state)
    requires events[k] == h[base + k] && m.apply(state, FactOf(events[k])).None?
    ensures !Applicable(m, id, h, base, events)
  {
    FoldSnoc(m, id, h, base + k);
    if Applicable(m, id, h, base, events) { FoldFails(m, id, h, base + k + 1, base + |events|); }
  }

  lemma {:induction false} RefusedHistory(
    m: Machine, id: string, h: seq<Event>, base: nat, events: seq<Event>, k: nat, state: string)
    requires k < |events| && base + k < |h| && Fold(m, id, h[..base + k]) == Some(state)
    requires events[k] == h[base + k] && m.apply(state, FactOf(events[k])).None?
    ensures Fold(m, id, h).None?
  {
    FoldSnoc(m, id, h, base + k);
    FoldFails(m, id, h, base + k + 1, |h|);
    assert h[..|h|] == h;
  }

  /** The events continue the history through `after`, and the next one does not. */
  predicate GapAt(h: seq<Event>, base: int, events: seq<Event>, after: int, found: int)
  {
    && base <= after && after - base < |events| && Continuing(h, base, events, after - base)
    && found == events[after - base].sequence != after + 1
    && !Continuing(h, base, events, |events|)
  }

  /** Why applying stops at event `k`, if it does. */
  lemma {:induction false} StopsHere(
    m: Machine, id: string, h: seq<Event>, base: nat, events: seq<Event>, k: nat, state: string, seen: set<string>)
    requires AppliedTo(m, id, h, base, events, k, state, seen) && k < |events| && Belongs(h, events[k])
    requires Numbered(h, id)
    ensures events[k].sequence != base + k + 1 ==> GapAt(h, base, events, base + k, events[k].sequence)
    ensures events[k].sequence == base + k + 1 && m.apply(state, FactOf(events[k])).None? ==> Fold(m, id, h).None?
  {
    ContinuingStep(h, base, events, k);
    ContinuingPrefix(h, base, events, k + 1, |events|);
    if events[k].sequence == base + k + 1 && m.apply(state, FactOf(events[k])).None? {
      RefusedHistory(m, id, h, base, events, k, state);
    }
  }

  /** What one event decides: a gap, a refusal, or one more event applied. */
  lemma {:induction false} ApplyNext(
    m: Machine, id: string, h: seq<Event>, base: nat, events: seq<Event>, k: nat, state: string, seen: set<string>)
    requires AppliedTo(m, id, h, base, events, k, state, seen) && k < |events| && Belongs(h, events[k])
    requires Numbered(h, id)
    ensures events[k].sequence != base + k + 1 ==>
              GapAt(h, base, events, base + k, events[k].sequence) && !Applicable(m, id, h, base, events)
    ensures events[k].sequence == base + k + 1 ==>
              var next := m.apply(state, FactOf(events[k]));
              && (next.Some? ==> AppliedTo(m, id, h, base, events, k + 1, next.value, seen + CommandOf(events[k])))
              && (next.None? ==> !Applicable(m, id, h, base, events) && Fold(m, id, h).None?)
  {
    StopsHere(m, id, h, base, events, k, state, seen);
    ContinuingStep(h, base, events, k);
    ContinuingPrefix(h, base, events, k + 1, |events|);
    if events[k].sequence == base + k + 1 {
      var next := m.apply(state, FactOf(events[k]));
      if next.Some? {
        AppliedOneMore(m, id, h, base, events, k, state, seen, next.value);
      } else {
        RefusedIsFinal(m, id, h, base, events, k, state);
      }
    }
  }

  /**
    Applies stored events after `base`. It finds a state exactly when the events continue the
    true history from `base` without a gap and the aggregate accepts them, and then the state is
    the fold of the history through the head it reports.
   */
  method ApplyEvents(
    m: Machine, ghost id: string, ghost h: seq<Event>, base: nat, snapshot: int, start: string, events: seq<Event>)
    returns (r: LoadResult)
    requires Numbered(h, id) && base <= |h| && Fold(m, id, h[..base]) == Some(start)
    requires forall i | 0 <= i < |events| :: Belongs(h, events[i])
    ensures r.Found? <==> Applicable(m, id, h, base, events)
    ensures r.Found? ==> r.loaded.head == base + |events| && r.loaded.snapshot == snapshot
                         && Fold(m, id, h[..base + |events|]) == Some(r.loaded.state)
                         && r.loaded.seen == Commands(events)
    ensures r.SequenceGap? ==> GapAt(h, base, events, r.after, r.found)
    ensures r.Refused? ==> Fold(m, id, h).None?
  {
    var current, state, seen, k := base, start, {}, 0;
    while k < |events|
      invariant k <= |events| && current == base + k
      invariant AppliedTo(m, id, h, base, events, k, state, seen)
    {
      var e := events[k];
      ApplyNext(m, id, h, base, events, k, state, seen);
      if e.sequence != current + 1 {
        return SequenceGap(current, e.sequence);
      }
      current := e.sequence;
      seen := seen + CommandOf(e);
      var next := m.apply(state, FactOf(e));
      if next.None? {
        return Refused;
      }
      state := next.value;
      k := k + 1;
    }
    assert events[..k] == events;
    r := Found(Loaded(current, snapshot, state, seen));
  }

  // ----- Loading against a moving store

  /** A load's answer is a past or present state of the stream: the fold of its first `head` events. */
  predicate ConsistentRead(m: Machine, w: World, id: string, loaded: Loaded)
  {
    0 <= loaded.head <= |History(w, id)| && Fold(m, id, History(w, id)[..loaded.head]) == Some(loaded.state)
  }

  /** The commands a load has seen: those of the events it applied after the snapshot it started from. */
  predicate SawCommands(w: World, id: string, loaded: Loaded, covered: int)
  {
    && 0 <= covered <= loaded.head <= |History(w, id)|
    && loaded.seen == Commands(History(w, id)[covered..loaded.head])
  }

  lemma {:induction false} ReadStaysConsistent(m: Machine, v: World, w: World, id: string, loaded: Loaded)
    requires ConsistentRead(m, v, id, loaded) && Grows(v, w)
    ensures ConsistentRead(m, w, id, loaded)
  {
    assert History(v, id) <= History(w, id);
    assert History(w, id)[..loaded.head] == History(v, id)[..loaded.head];
  }

  /** The history covered by a snapshot read earlier is still the history's beginning. */
  lemma {:induction false} SnapshotStaysTrue(m: Machine, v: World, w: World, id: string)
    requires StreamInv(m, v, id) && Grows(v, w)
    ensures TrueSnapshot(m, id, History(w, id), SnapshotOf(v.rows, id))
  {
    assert History(v, id) <= History(w, id);
    var s := SnapshotOf(v.rows, id);
    if s.Some? {
      assert History(w, id)[..s.value.eventSequence] == History(v, id)[..s.value.eventSequence];
    }
  }

  lemma {:induction false} LoggedIsStored(h: seq<Event>, log: seq<Event>, e: Event)
    requires Genuine(h, log) && e in log
    ensures Belongs(h, e)
  {
    var i :| 0 <= i < |log| && log[i] == e;
  }

  lemma {:induction false} LatestIsStored(h: seq<Event>, log: seq<Event>, snapshot: Option<Snapshot>, i: nat)
    requires Genuine(h, log) && i < |Latest(snapshot, log)|
    ensures Belongs(h, Latest(snapshot, log)[i])
  {
    var e := Latest(snapshot, log)[i];
    if snapshot.Some? { FilterMember(After(snapshot.value.eventSequence), log, e); }
    LoggedIsStored(h, log, e);
  }

  /**
    Loads a stream from the snapshot read in world `v` and the events read in the later world
    `w`. It finds a state exactly when the stored events continue the history from the snapshot
    without a gap and the aggregate accepts them; the state is then the fold of the true
    history through the head. A gap, left by a compaction in between, is reported, never folded.
   */
  method LoadAggregate(
    m: Machine, id: string, ghost v: World, ghost w: World, snapshot: Option<Snapshot>, log: seq<Event>)
    returns (r: LoadResult)
    requires StreamInv(m, v, id) && StreamInv(m, w, id) && Grows(v, w)
    requires snapshot == SnapshotOf(v.rows, id) && log == Log(w.rows, id)
    ensures r.Found? ==> ConsistentRead(m, w, id, r.loaded)
                         && r.loaded.head == Covered(snapshot) + |Latest(snapshot, log)|
                         && r.loaded.seen == Commands(Latest(snapshot, log))
                         && SawCommands(w, id, r.loaded, Covered(snapshot))
                         && r.loaded.snapshot == if snapshot.Some? then snapshot.value.sequence else 0
    ensures r.Found? <==> Applicable(m, id, History(w, id), Covered(snapshot), Latest(snapshot, log))
    ensures r.SequenceGap? ==> SnapshotOf(w.rows, id) != snapshot
    ensures r.Refused? ==> Fold(m, id, History(w, id)).None?
  {
    ghost var h := History(w, id);
    SnapshotStaysTrue(m, v, w, id);
    var events := Latest(snapshot, log);
    forall i | 0 <= i < |events| ensures Belongs(h, events[i]) { LatestIsStored(h, log, snapshot, i); }
    NoGapWithoutNewSnapshot(m, w, id, snapshot);
    r := LoadFrom(m, id, h, snapshot, events);
  }

  lemma {:induction false} WholeWindow(h: seq<Event>, base: int, events: seq<Event>)
    requires Continuing(h, base, events, |events|)
    ensures h[base..base + |events|] == events
  {
    assert events[..|events|] == events;
  }

  /** Starts from the snapshot's state, or from nothing without one. */
  method LoadFrom(m: Machine, id: string, ghost h: seq<Event>, snapshot: Option<Snapshot>, events: seq<Event>)
    returns (r: LoadResult)
    requires Numbered(h, id) && TrueSnapshot(m, id, h, snapshot)
    requires forall i | 0 <= i < |events| :: Belongs(h, events[i])
    ensures r.Found? <==> Applicable(m, id, h, Covered(snapshot), events)
    ensures r.Found? ==> r.loaded.head == Covered(snapshot) + |events|
                         && 0 <= r.loaded.head <= |h| && Fold(m, id, h[..r.loaded.head]) == Some(r.loaded.state)
                         && r.loaded.seen == Commands(events) == Commands(h[Covered(snapshot)..r.loaded.head])
                         && r.loaded.snapshot == if snapshot.Some? then snapshot.value.sequence else 0
    ensures r.SequenceGap? ==> !Continuing(h, Covered(snapshot), events, |events|)
    ensures r.Refused? ==> Fold(m, id, h).None?
  {
    if snapshot.Some? {
      r := ApplyEvents(m, id, h, snapshot.value.eventSequence, snapshot.value.sequence, snapshot.value.payload, events);
    } else {
      assert h[..0] == [];
      r := ApplyEvents(m, id, h, 0, 0, m.init(id), events);
    }
    if r.Found? { WholeWindow(h, Covered(snapshot), events); }
  }

  lemma {:induction false} NoGapWithoutNewSnapshot(m: Machine, w: World, id: string, snapshot: Option<Snapshot>)
    requires StreamInv(m, w, id)
    ensures SnapshotOf(w.rows, id) == snapshot ==>
              var events := Latest(snapshot, Log(w.rows, id));
              Continuing(History(w, id), Covered(snapshot), events, |events|)
  {
    if SnapshotOf(w.rows, id) == snapshot { UncoveredTail(m, id, History(w, id), Log(w.rows, id), snapshot); }
  }

  /** With no snapshot or compaction in between, a load reaches the head or the aggregate refuses its history. */
  lemma {:induction false} UndisturbedLoadReachesHead(m: Machine, w: World, id: string)
    requires StreamInv(m, w, id)
    ensures var snapshot, log, h := SnapshotOf(w.rows, id), Log(w.rows, id), History(w, id);
            && Covered(snapshot) + |Latest(snapshot, log)| == |h|
            && (Applicable(m, id, h, Covered(snapshot), Latest(snapshot, log)) <==> Fold(m, id, h).Some?)
  {
    var snapshot, log, h := SnapshotOf(w.rows, id), Log(w.rows, id), History(w, id);
    UncoveredTail(m, id, h, log, snapshot);
    assert h[..|h|] == h;
  }

  // ----- A load nothing interferes with

  function SequenceKey(e: Event): Key { ("", "", e.sequence) }

  lemma {:induction false} LatestMembers(h: seq<Event>, log: seq<Event>, snapshot: Option<Snapshot>, e: Event)
    requires Genuine(h, log) && KeepsUncovered(h, log, Covered(snapshot)) && 0 <= Covered(snapshot) <= |h|
    requires forall i | 0 <= i < |h| :: h[i].sequence == i + 1
    ensures e in Latest(snapshot, log) <==> e in h[Covered(snapshot)..]
  {
    var c := Covered(snapshot);
    if snapshot.Some? { FilterMember(After(c), log, e); }
    if e in log && e.sequence > c { StoredInTail(h, log, c, e); }
    if e in h[c..] { TailIsStored(h, log, c, e); }
    if snapshot.None? && e in log { assert Belongs(h, e); }
  }

  lemma {:induction false} StoredInTail(h: seq<Event>, log: seq<Event>, c: nat, e: Event)
    requires Genuine(h, log) && c <= |h| && e in log && e.sequence > c
    ensures e in h[c..]
  {}

  lemma {:induction false} TailIsStored(h: seq<Event>, log: seq<Event>, c: nat, e: Event)
    requires KeepsUncovered(h, log, c) && c <= |h| && e in h[c..]
    requires forall i | 0 <= i < |h| :: h[i].sequence == i + 1
    ensures e in log && e.sequence > c
  {}

  lemma {:induction false} LatestAscends(h: seq<Event>, log: seq<Event>, snapshot: Option<Snapshot>)
    requires Genuine(h, log)
    ensures Sorted(Latest(snapshot, log), SequenceKey) && DistinctKeys(Latest(snapshot, log), SequenceKey)
  {
    if snapshot.Some? { FilteredIsGenuine(h, log, After(snapshot.value.eventSequence)); }
  }

  lemma {:induction false} LatestIsTail(h: seq<Event>, log: seq<Event>, snapshot: Option<Snapshot>)
    requires Genuine(h, log) && KeepsUncovered(h, log, Covered(snapshot)) && 0 <= Covered(snapshot) <= |h|
    requires forall i | 0 <= i < |h| :: h[i].sequence == i + 1
    ensures Latest(snapshot, log) == h[Covered(snapshot)..]
  {
    LatestAscends(h, log, snapshot);
    forall e ensures e in Latest(snapshot, log) <==> e in h[Covered(snapshot)..] { LatestMembers(h, log, snapshot, e); }
    ListingUnique(Latest(snapshot, log), h[Covered(snapshot)..], SequenceKey);
  }

  /** While the snapshot stays the one read, the stored events after it are the rest of the history. */
  lemma {:induction false} UncoveredTail(
    m: Machine, id: string, h: seq<Event>, log: seq<Event>, snapshot: Option<Snapshot>)
    requires TrueRows(m, id, h, log, snapshot)
    ensures 0 <= Covered(snapshot) <= |h| && Latest(snapshot, log) == h[Covered(snapshot)..]
    ensures Continuing(h, Covered(snapshot), Latest(snapshot, log), |Latest(snapshot, log)|)
  {
    LatestIsTail(h, log, snapshot);
  }

  // ----- Snapshots made from loads

  /** A snapshot of a loaded state, put outside any commit, is the fold of the events it covers. */
  lemma {:induction false} LoadedSnapshotIsHonest(
    m: Machine, v: World, w: World, id: string, loaded: Loaded, entityType: string)
    requires ConsistentRead(m, v, id, loaded) && Grows(v, w) && loaded.head >= 1
    ensures HonestCatchUp(m, w, Snapshot(id, entityType, loaded.snapshot + 1, loaded.head, loaded.state))
  {
    ReadStaysConsistent(m, v, w, id, loaded);
  }

  /** The snapshot a load writes when it replayed at least `threshold` events. */
  method MaybeCatchUpSnapshot(
    threshold: int, id: string, entityType: string, snapshot: Option<Snapshot>, loaded: Loaded, replayed: nat,
    fits: bool)
    returns (put: Option<Snapshot>)
    requires loaded.head == Covered(snapshot) + replayed && 0 <= Covered(snapshot)
    ensures put.Some? <==> threshold > 0 && fits
                           && loaded.head - (if snapshot.Some? then Covered(snapshot) else 0) >= threshold
    ensures put.Some? ==> put.value == Snapshot(id, entityType, loaded.snapshot + 1, loaded.head, loaded.state)
                          && put.value.eventSequence > Covered(snapshot)
  {
    var since := replayed as int;
    if snapshot.None? {
      since := loaded.head;
    }
    if threshold <= 0 || since < threshold || !fits {
      return None;
    }
    put := Some(Snapshot(id, entityType, loaded.snapshot + 1, loaded.head, loaded.state));
  }

  // ----- The snapshot interval

  /** How many events of a batch a commit folds into a snapshot: all of them, or none. */
  function CalculateAdditionalEvents(current: nat, count: nat, size: int): int
  {
    if size <= 0 then 0
    else if count < size - current % size then 0
    else count
  }

  /** A batch is snapshotted exactly when it reaches or passes a multiple of the interval. */
  lemma {:induction false} SnapshotsAtMultiples(current: nat, count: nat, size: int)
    requires size > 0
    ensures CalculateAdditionalEvents(current, count, size) > 0 <==> current / size < (current + count) / size
    ensures CalculateAdditionalEvents(current, count, size) in {0, count as int}
  {
    var rest := current % size;
    assert current == current / size * size + rest;
    var after := current + count;
    if count < size - rest { QuotientIs(after, current / size, size); }
  }

  lemma {:induction false} QuotientIs(x: int, q: int, size: int)
    requires size > 0 && q * size <= x < q * size + size
    ensures x / size == q
  {
    assert x == x / size * size + x % size;
    assert (x / size - q) * size < size && (x / size - q) * size > -size;
    SmallMultiple(x / size - q, size);
  }

  lemma {:induction false} SmallMultiple(d: int, size: int)
    requires size > 0 && -size < d * size < size
    ensures d == 0
  {}

  /** The last multiple of the interval a stream of this length has reached. */
  function LastMultiple(size: int, length: nat): nat
    requires size > 0
    decreases length
  {
    if length < size then 0 else size + LastMultiple(size, length - size)
  }

  lemma {:induction false} LastMultipleIs(size: int, length: nat)
    requires size > 0
    ensures LastMultiple(size, length) == length / size * size
    decreases length
  {
    if length < size {
      QuotientIs(length, 0, size);
    } else {
      LastMultipleIs(size, length - size);
      var q := (length - size) / size;
      assert length - size == q * size + (length - size) % size;
      assert (q + 1) * size == q * size + size;
      QuotientIs(length, q + 1, size);
    }
  }

  /** The newest snapshot reaches the last multiple of the interval the stream has passed. */
  predicate Recent(size: int, length: nat, covered: int)
    requires size > 0
  {
    LastMultiple(size, length) <= covered
  }

  /** Lengths between one multiple and the next have the same last multiple. */
  lemma {:induction false} SameMultiple(size: int, length: nat, total: nat)
    requires size > 0 && LastMultiple(size, length) <= total < LastMultiple(size, length) + size
    ensures LastMultiple(size, total) == LastMultiple(size, length)
    decreases length
  {
    if length >= size { SameMultiple(size, length - size, total - size); }
  }

  lemma {:induction false} MultipleIsNear(size: int, length: nat)
    requires size > 0
    ensures LastMultiple(size, length) <= length < LastMultiple(size, length) + size
    decreases length
  {
    if length >= size { MultipleIsNear(size, length - size); }
  }

  lemma {:induction false} RemainderIs(size: int, length: nat)
    requires size > 0
    ensures length % size == length - LastMultiple(size, length)
  {
    LastMultipleIs(size, length);
  }

  /** So fewer than an interval's worth of events are ever replayed. */
  lemma {:induction false} RecentIsNear(size: int, length: nat, covered: int)
    requires size > 0 && Recent(size, length, covered)
    ensures length - covered < size
  {
    MultipleIsNear(size, length);
  }

  /** A batch that takes its snapshot exactly when it must keeps the newest snapshot recent. */
  lemma {:induction false} BatchKeepsRecent(size: int, length: nat, count: nat, covered: int, after: int)
    requires size > 0 && Recent(size, length, covered) && covered <= after
    requires CalculateAdditionalEvents(length, count, size) > 0 ==> after == length + count
    ensures Recent(size, length + count, after)
  {
    RemainderIs(size, length);
    MultipleIsNear(size, length);
    MultipleIsNear(size, length + count);
    if length + count < LastMultiple(size, length) + size { SameMultiple(size, length, length + count); }
  }

}
