/**
  The canonical form of a commit. Events are ordered by stream ID with each stream's own order
  kept, snapshots and fences are ordered by stream ID, a fence on a written stream is dropped,
  and the outcome's receipt lists the written events.

  The sorts of snapshots and fences are unstable: the model gives them only "sorted" and
  "a permutation", and the canonical form is proved not to depend on the choice.
 */
module Commit {
  import opened Basics
  import opened Order
  import opened Sequences
  import opened CommitLog
  import opened Projection
  import Decimal

  const MAX_INT := 0x7fff_ffff_ffff_ffff
  const MAX_COMMAND_ID := 512
  const MAX_OUTCOME := 65536

  datatype Snapshot = Snapshot(
    entity: string, entityType: string, sequence: int, eventSequence: int, payload: string)

  datatype Fence = Fence(entity: string, entityType: string, head: int, callerStamped: bool)

  datatype Status = Accepted | Rejected | UnknownStatus

  datatype Rejection = Rejection(code: string, message: string)

  datatype Outcome = Outcome(
    commandID: string, digest: string, status: Status, response: string,
    rejection: Option<Rejection>, eventIDs: seq<string>)

  datatype SerializedResult = SerializedResult(
    events: seq<Event>, snapshots: seq<Snapshot>, fences: seq<Fence>, views: seq<Projected>,
    outcome: Option<Outcome>)

  datatype CommitError =
    | ProjectorOnly(operations: nat) | InvalidViews | InvalidOutcome | InvalidText
    | ReservedEntity(entity: string) | WrongEventID(id: string) | NotContiguous(id: string) | MixedTypes(entity: string)
    | UncoveredSnapshot(entity: string) | DuplicateSnapshot(entity: string)
    | InvalidHead(entity: string) | DuplicateFence(entity: string)

  // ----- Event IDs

  function FormatInt(n: int): string
  {
    if n < 0 then "-" + Decimal.Format(-n) else Decimal.Format(n)
  }

  function EventID(entity: string, sequence: int): string
  {
    entity + ":" + FormatInt(sequence)
  }

  /** The last index of `c`, or -1. */
  function LastIndex(s: string, c: char): (k: int)
    ensures -1 <= k < |s|
    ensures k >= 0 ==> s[k] == c && c !in s[k + 1..]
    ensures k < 0 ==> c !in s
  {
    if s == "" then -1
    else if s[|s| - 1] == c then |s| - 1
    else
      var k := LastIndex(s[..|s| - 1], c);
      assert s == s[..|s| - 1] + [s[|s| - 1]];
      assert k >= 0 ==> s[k + 1..] == s[..|s| - 1][k + 1..] + [s[|s| - 1]];
      k
  }

  /** Decimal digits with an optional sign, in the range of a 64-bit integer. */
  function ParseInt(s: string): Option<int>
  {
    var signed := s != "" && (s[0] == '+' || s[0] == '-');
    var digits := if signed then s[1..] else s;
    if digits == "" || !Decimal.Digits(digits) then None
    else
      var n := if signed && s[0] == '-' then -(Decimal.Value(digits) as int) else Decimal.Value(digits) as int;
      if -MAX_INT - 1 <= n <= MAX_INT then Some(n) else None
  }

  /** The entity and sequence a receipt's event ID stands for; None is a corrupt receipt. */
  function ParseEventID(id: string): Option<(string, int)>
  {
    var index := LastIndex(id, ':');
    if index <= 0 then None
    else
      var text := id[index + 1..];
      match ParseInt(text)
      case None => None
      case Some(n) => if n < 1 || FormatInt(n) != text then None else Some((id[..index], n))
  }

  lemma {:induction false} LastColon(entity: string, text: string)
    requires ':' !in text
    ensures LastIndex(entity + ":" + text, ':') == |entity|
  {
    var id := entity + ":" + text;
    if text == "" {
      assert id[|id| - 1] == ':';
    } else {
      var front := text[..|text| - 1];
      assert text[|text| - 1] in text && id[|id| - 1] == text[|text| - 1];
      LastColon(entity, front);
      assert id[..|id| - 1] == entity + ":" + front;
    }
  }

  lemma {:induction false} FormatParses(n: int)
    requires 1 <= n <= MAX_INT
    ensures ParseInt(FormatInt(n)) == Some(n)
  {
    Decimal.FormatValue(n);
    assert Decimal.IsDigit(Decimal.Format(n)[0]);
  }

  /** An event ID parses back to its entity and sequence exactly when the entity ID is not empty. */
  lemma {:induction false} EventIDParsesBack(entity: string, sequence: int)
    requires 1 <= sequence <= MAX_INT
    ensures ParseEventID(EventID(entity, sequence)) == if entity == "" then None else Some((entity, sequence))
  {
    var text := FormatInt(sequence);
    LastColon(entity, text);
    FormatParses(sequence);
    var id := EventID(entity, sequence);
    assert id[|entity| + 1..] == text && id[..|entity|] == entity;
  }

  /** No other text parses to that entity and sequence. */
  lemma {:induction false} ParsedIsEventID(id: string)
    requires ParseEventID(id).Some?
    ensures var (entity, sequence) := ParseEventID(id).value;
            entity != "" && 1 <= sequence <= MAX_INT && id == EventID(entity, sequence)
  {
    var index := LastIndex(id, ':');
    assert id == id[..index] + [id[index]] + id[index + 1..];
  }

  // ----- What a commit must satisfy

  function EventStreamKey(e: Event): Key { (e.entity, "", 0) }

  function SnapshotKey(s: Snapshot): Key { (s.entity, "", 0) }

  function FenceKey(f: Fence): Key { (f.entity, "", 0) }

  /** The events of one stream, in order. */
  function Stream(events: seq<Event>, entity: string): seq<Event>
  {
    Select(events, EventStreamKey, (entity, "", 0))
  }

  predicate Reserved(entity: string)
  {
    "SYSTEM#" <= entity || "command-outcome#" <= entity
  }

  /** What an event must be by itself; `recorded` says whether the commit records an outcome. */
  predicate EventOK(e: Event, recorded: bool)
  {
    && !Reserved(e.entity)
    && (e.id == EventID(e.entity, e.sequence) || (e.id == "" && !recorded))
    && 1 <= e.sequence
  }

  predicate Follows(p: Event, e: Event)
  {
    p.sequence != MAX_INT && e.sequence == p.sequence + 1 && p.entityType == e.entityType
  }

  predicate StreamOK(stream: seq<Event>, recorded: bool)
  {
    && (forall i | 0 <= i < |stream| :: EventOK(stream[i], recorded))
    && (forall i | 0 < i < |stream| :: Follows(stream[i - 1], stream[i]))
  }

  ghost predicate StreamsOK(events: seq<Event>, recorded: bool)
  {
    forall entity :: StreamOK(Stream(events, entity), recorded)
  }

  predicate Covers(s: Snapshot, stream: seq<Event>)
  {
    stream != [] && s.sequence >= 1
    && s.eventSequence == stream[|stream| - 1].sequence && s.entityType == stream[|stream| - 1].entityType
  }

  predicate SnapshotsOK(snapshots: seq<Snapshot>, events: seq<Event>)
  {
    && DistinctKeys(snapshots, SnapshotKey)
    && (forall i | 0 <= i < |snapshots| :: Covers(snapshots[i], Stream(events, snapshots[i].entity)))
  }

  predicate FenceOK(f: Fence)
  {
    !Reserved(f.entity) && 0 <= f.head && f.head != MAX_INT
  }

  predicate FencesOK(fences: seq<Fence>)
  {
    DistinctKeys(fences, FenceKey) && forall i | 0 <= i < |fences| :: FenceOK(fences[i])
  }

  predicate OutcomeOK(o: Outcome)
  {
    && o.commandID != "" && |o.commandID| <= MAX_COMMAND_ID && ValidText(o.commandID)
    && o.digest != "" && ValidText(o.digest)
    && (match o.status
        case Accepted => o.rejection.None?
        case Rejected => o.rejection.Some? && o.rejection.value.code != ""
        case UnknownStatus => false)
    && |o.response| <= MAX_OUTCOME
    && (o.rejection.Some? ==> ValidText(o.rejection.value.code) && ValidText(o.rejection.value.message))
  }

  predicate OptionalText(s: Option<string>) { s.Some? ==> ValidText(s.value) }

  predicate MetadataText(m: Metadata)
  {
    && ValidText(m.commitID) && OptionalText(m.commandID) && OptionalText(m.causationID)
    && (m.extensions.Some? ==>
          forall k | k in m.extensions.value :: ValidText(k) && ValidText(m.extensions.value[k]))
  }

  predicate EventText(e: Event)
  {
    ValidText(e.id) && ValidText(e.entity) && ValidText(e.entityType) && MetadataText(e.metadata)
  }

  /** Everything a commit with an outcome stores as text can be stored. */
  predicate TextOK(r: SerializedResult)
  {
    && (forall e | e in r.events :: EventText(e))
    && (forall s | s in r.snapshots :: ValidText(s.entity) && ValidText(s.entityType))
    && (forall f | f in r.fences :: ValidText(f.entity) && ValidText(f.entityType))
  }

  /** What is checked before anything is sorted. */
  predicate Prechecked(r: SerializedResult)
  {
    && (r.events == [] ==> r.views == [])
    && CheckViews(r.views, map[]).None?
    && (r.outcome.Some? ==> OutcomeOK(r.outcome.value) && TextOK(r))
  }

  ghost predicate WellFormed(r: SerializedResult)
  {
    && Prechecked(r)
    && StreamsOK(r.events, r.outcome.Some?)
    && SnapshotsOK(r.snapshots, r.events)
    && FencesOK(r.fences)
  }

  // ----- The canonical form

  function Writes(events: seq<Event>): set<string>
  {
    set i | 0 <= i < |events| :: events[i].entity
  }

  function Unwritten(written: set<string>): Fence -> bool
  {
    (f: Fence) => f.entity !in written
  }

  function IDs(events: seq<Event>): seq<string>
  {
    Map((e: Event) => e.id, events)
  }

  function Normalized(r: SerializedResult): SerializedResult
  {
    var events := Sort(r.events, EventStreamKey);
    SerializedResult(
      events,
      Sort(r.snapshots, SnapshotKey),
      Filter(Unwritten(Writes(r.events)), Sort(r.fences, FenceKey)),
      r.views,
      if r.outcome.None? then None else Some(r.outcome.value.(eventIDs := IDs(events))))
  }

  /** Two commits that differ only in an order the canonical form does not keep. */
  ghost predicate SameUpToOrder(r: SerializedResult, s: SerializedResult)
  {
    && (forall entity :: Stream(r.events, entity) == Stream(s.events, entity))
    && multiset(r.snapshots) == multiset(s.snapshots)
    && multiset(r.fences) == multiset(s.fences)
    && r.views == s.views && r.outcome == s.outcome
  }

  lemma {:induction false} StreamMember(events: seq<Event>, entity: string, e: Event)
    ensures e in Stream(events, entity) <==> e in events && e.entity == entity
  {
    SelectMember(events, EventStreamKey, (entity, "", 0), e);
  }

  lemma {:induction false} SelectsAreStreams(a: seq<Event>, b: seq<Event>)
    requires forall entity :: Stream(a, entity) == Stream(b, entity)
    ensures forall k :: Select(a, EventStreamKey, k) == Select(b, EventStreamKey, k)
  {
    forall k ensures Select(a, EventStreamKey, k) == Select(b, EventStreamKey, k) {
      if k == (k.0, "", 0) {
        assert Stream(a, k.0) == Stream(b, k.0);
      } else {
        SelectsNothing(a, k);
        SelectsNothing(b, k);
      }
    }
  }

  lemma {:induction false} SelectsNothing(events: seq<Event>, k: Key)
    requires k != (k.0, "", 0)
    ensures Select(events, EventStreamKey, k) == []
  {
    if events != [] { SelectsNothing(events[1..], k); }
  }

  lemma {:induction false} SortedStreams(events: seq<Event>, entity: string)
    ensures Stream(Sort(events, EventStreamKey), entity) == Stream(events, entity)
  {
    SortKeeps(events, EventStreamKey);
  }

  lemma {:induction false} WritesAreStreams(events: seq<Event>, entity: string)
    ensures entity in Writes(events) <==> Stream(events, entity) != []
  {
    if entity in Writes(events) {
      var i :| 0 <= i < |events| && events[i].entity == entity;
      StreamMember(events, entity, events[i]);
    }
    if Stream(events, entity) != [] {
      var e := Stream(events, entity)[0];
      StreamMember(events, entity, e);
      var i :| 0 <= i < |events| && events[i] == e;
      assert events[i].entity in Writes(events);
    }
  }

  lemma {:induction false} SameWrites(a: seq<Event>, b: seq<Event>)
    requires forall entity :: Stream(a, entity) == Stream(b, entity)
    ensures Writes(a) == Writes(b)
  {
    forall entity ensures entity in Writes(a) <==> entity in Writes(b) {
      WritesAreStreams(a, entity);
      WritesAreStreams(b, entity);
      assert Stream(a, entity) == Stream(b, entity);
    }
  }

  lemma {:induction false} SnapshotsOKTransfers(a: seq<Snapshot>, b: seq<Snapshot>, e: seq<Event>, f: seq<Event>)
    requires SnapshotsOK(a, e) && multiset(a) == multiset(b)
    requires forall entity :: Stream(e, entity) == Stream(f, entity)
    ensures SnapshotsOK(b, f)
  {
    DistinctKept(a, b, SnapshotKey);
    forall i | 0 <= i < |b| ensures Covers(b[i], Stream(f, b[i].entity)) {
      assert b[i] in multiset(b) && b[i] in a;
      assert Stream(e, b[i].entity) == Stream(f, b[i].entity);
    }
  }

  lemma {:induction false} FencesOKTransfers(a: seq<Fence>, b: seq<Fence>)
    requires FencesOK(a) && multiset(a) == multiset(b)
    ensures FencesOK(b)
  {
    DistinctKept(a, b, FenceKey);
    forall i | 0 <= i < |b| ensures FenceOK(b[i]) { assert b[i] in multiset(b) && b[i] in a; }
  }

  lemma {:induction false} SameEvents(a: seq<Event>, b: seq<Event>, e: Event)
    requires (forall entity :: Stream(a, entity) == Stream(b, entity)) && e in b
    ensures e in a
  {
    StreamMember(a, e.entity, e);
    StreamMember(b, e.entity, e);
    assert Stream(a, e.entity) == Stream(b, e.entity);
  }

  lemma {:induction false} PrecheckedTransfers(r: SerializedResult, s: SerializedResult)
    requires Prechecked(r) && r.views == s.views && r.outcome.Some? == s.outcome.Some?
    requires r.outcome.Some? ==> OutcomeOK(s.outcome.value)
    requires forall e :: e in r.events <==> e in s.events
    requires forall x | x in s.snapshots :: x in r.snapshots
    requires forall f | f in s.fences :: f in r.fences
    ensures Prechecked(s)
  {
    assert r.events == [] || r.events[0] in r.events;
  }

  lemma {:induction false} PrecheckedAlike(r: SerializedResult, s: SerializedResult)
    requires SameUpToOrder(r, s) && Prechecked(r)
    ensures Prechecked(s)
  {
    forall e ensures e in r.events <==> e in s.events {
      if e in s.events { SameEvents(r.events, s.events, e); }
      if e in r.events { SameEvents(s.events, r.events, e); }
    }
    assert forall x :: x in s.snapshots ==> x in multiset(s.snapshots);
    assert forall f :: f in s.fences ==> f in multiset(s.fences);
    PrecheckedTransfers(r, s);
  }

  lemma {:induction false} WellFormedTransfers(r: SerializedResult, s: SerializedResult)
    requires SameUpToOrder(r, s) && WellFormed(r)
    ensures WellFormed(s)
  {
    forall entity ensures StreamOK(Stream(s.events, entity), s.outcome.Some?) {
      assert Stream(r.events, entity) == Stream(s.events, entity);
    }
    SnapshotsOKTransfers(r.snapshots, s.snapshots, r.events, s.events);
    FencesOKTransfers(r.fences, s.fences);
    PrecheckedAlike(r, s);
  }

  lemma {:induction false} SameSort(a: seq<Event>, b: seq<Event>)
    requires forall entity :: Stream(a, entity) == Stream(b, entity)
    ensures Sort(a, EventStreamKey) == Sort(b, EventStreamKey)
  {
    SelectsAreStreams(a, b);
    SortKeeps(a, EventStreamKey);
    SortKeeps(b, EventStreamKey);
    SortedUnique(Sort(a, EventStreamKey), Sort(b, EventStreamKey), EventStreamKey);
  }

  /** Reordering that keeps each stream's own order changes neither the verdict nor the result. */
  lemma {:induction false} NormalizingIgnoresOrder(r: SerializedResult, s: SerializedResult)
    requires SameUpToOrder(r, s)
    ensures WellFormed(r) <==> WellFormed(s)
    ensures WellFormed(r) ==> Normalized(r) == Normalized(s)
  {
    if WellFormed(r) { WellFormedTransfers(r, s); }
    if WellFormed(s) { WellFormedTransfers(s, r); }
    if WellFormed(r) {
      SameSort(r.events, s.events);
      SameWrites(r.events, s.events);
      SortIgnoresOrder(r.snapshots, s.snapshots, SnapshotKey);
      SortIgnoresOrder(r.fences, s.fences, FenceKey);
    }
  }

  // ----- Idempotence

  lemma {:induction false} SortFixed<T>(xs: seq<T>, key: T -> Key)
    requires Sorted(xs, key)
    ensures Sort(xs, key) == xs
  {
    SortKeeps(xs, key);
    SortedUnique(Sort(xs, key), xs, key);
  }

  lemma {:induction false} FilterKeepsOrder<T>(p: T -> bool, xs: seq<T>, key: T -> Key)
    requires Sorted(xs, key)
    ensures Sorted(Filter(p, xs), key)
    ensures DistinctKeys(xs, key) ==> DistinctKeys(Filter(p, xs), key)
  {
    if xs != [] {
      var front, x := xs[..|xs| - 1], xs[|xs| - 1];
      FilterKeepsOrder(p, front, key);
      var kept := Filter(p, front);
      forall i | 0 <= i < |kept|
        ensures KeyLeq(key(kept[i]), key(x))
        ensures DistinctKeys(xs, key) ==> key(kept[i]) != key(x)
      {
        FilterMember(p, front, kept[i]);
        assert kept[i] in front;
      }
    }
  }

  lemma {:induction false} KeptFences(r: SerializedResult)
    requires FencesOK(r.fences)
    ensures var kept := Normalized(r).fences;
            FencesOK(kept) && Sorted(kept, FenceKey)
            && forall f :: f in kept <==> f in r.fences && f.entity !in Writes(r.events)
  {
    var sorted, p := Sort(r.fences, FenceKey), Unwritten(Writes(r.events));
    SortKeeps(r.fences, FenceKey);
    FencesOKTransfers(r.fences, sorted);
    FilterKeepsOrder(p, sorted, FenceKey);
    forall f ensures f in Filter(p, sorted) <==> f in r.fences && f.entity !in Writes(r.events) {
      FilterMember(p, sorted, f);
      assert f in multiset(sorted) <==> f in multiset(r.fences);
    }
    var kept := Filter(p, sorted);
    forall i | 0 <= i < |kept| ensures FenceOK(kept[i]) { assert kept[i] in kept; }
  }

  lemma {:induction false} NormalizedIsWellFormed(r: SerializedResult)
    requires WellFormed(r)
    ensures WellFormed(Normalized(r))
  {
    var n := Normalized(r);
    forall entity ensures Stream(n.events, entity) == Stream(r.events, entity) { SortedStreams(r.events, entity); }
    forall entity ensures StreamOK(Stream(n.events, entity), n.outcome.Some?) {
      assert StreamOK(Stream(r.events, entity), r.outcome.Some?);
    }
    SortKeeps(r.snapshots, SnapshotKey);
    SnapshotsOKTransfers(r.snapshots, n.snapshots, r.events, n.events);
    KeptFences(r);
    NormalizedIsPrechecked(r);
  }

  lemma {:induction false} NormalizedIsPrechecked(r: SerializedResult)
    requires Prechecked(r) && FencesOK(r.fences)
    ensures Prechecked(Normalized(r))
  {
    var n := Normalized(r);
    SortKeeps(r.events, EventStreamKey);
    SortKeeps(r.snapshots, SnapshotKey);
    KeptFences(r);
    forall e ensures e in r.events <==> e in n.events {
      assert e in multiset(r.events) <==> e in multiset(n.events);
    }
    assert forall x :: x in n.snapshots ==> x in multiset(n.snapshots);
    PrecheckedTransfers(r, n);
  }

  /** The canonical form is its own canonical form. */
  lemma {:induction false} NormalizingTwiceIsOnce(r: SerializedResult)
    requires WellFormed(r)
    ensures WellFormed(Normalized(r)) && Normalized(Normalized(r)) == Normalized(r)
  {
    var n := Normalized(r);
    NormalizedIsWellFormed(r);
    SortKeeps(r.events, EventStreamKey);
    SortFixed(n.events, EventStreamKey);
    SortKeeps(r.snapshots, SnapshotKey);
    SortFixed(n.snapshots, SnapshotKey);
    KeptFences(r);
    SortFixed(n.fences, FenceKey);
    forall entity ensures Stream(n.events, entity) == Stream(r.events, entity) { SortedStreams(r.events, entity); }
    SameWrites(n.events, r.events);
    forall i | 0 <= i < |n.fences| ensures Unwritten(Writes(n.events))(n.fences[i]) {
      assert n.fences[i] in n.fences;
    }
    FilterAll(Unwritten(Writes(n.events)), n.fences);
  }

  // ----- What the canonical form promises

  lemma {:induction false} Consecutive(stream: seq<Event>, recorded: bool, i: nat)
    requires StreamOK(stream, recorded) && i < |stream|
    ensures stream[i].sequence == stream[0].sequence + i && stream[i].entityType == stream[0].entityType
  {
    if i > 0 {
      Consecutive(stream, recorded, i - 1);
      assert Follows(stream[i - 1], stream[i]);
    }
  }

  /** Each stream of a normalized commit is one contiguous, canonically named run of the input's events. */
  lemma {:induction false} StreamsAreContiguous(r: SerializedResult, entity: string)
    requires WellFormed(r)
    ensures var stream := Stream(Normalized(r).events, entity);
            && stream == Stream(r.events, entity)
            && (forall i | 0 <= i < |stream| ::
                  stream[i].entity == entity && 1 <= stream[0].sequence
                  && stream[i].sequence == stream[0].sequence + i && stream[i].entityType == stream[0].entityType)
    ensures Sorted(Normalized(r).events, EventStreamKey) && multiset(Normalized(r).events) == multiset(r.events)
  {
    var stream := Stream(Normalized(r).events, entity);
    SortKeeps(r.events, EventStreamKey);
    SortedStreams(r.events, entity);
    assert stream == Stream(r.events, entity) && StreamOK(Stream(r.events, entity), r.outcome.Some?);
    forall i | 0 <= i < |stream|
      ensures stream[i].entity == entity && 1 <= stream[0].sequence
              && stream[i].sequence == stream[0].sequence + i && stream[i].entityType == stream[0].entityType
    {
      StreamMember(Normalized(r).events, entity, stream[i]);
      Consecutive(stream, r.outcome.Some?, i);
      assert EventOK(stream[0], r.outcome.Some?);
    }
  }

  /** Every fence guards an unwritten stream, once; no fence on an unwritten stream is lost. */
  lemma {:induction false} FencesGuardUnwritten(r: SerializedResult)
    requires WellFormed(r)
    ensures var n := Normalized(r);
            && DistinctKeys(n.fences, FenceKey)
            && (forall f | f in n.fences :: Stream(n.events, f.entity) == [])
            && (forall f | f in r.fences :: f in n.fences || Stream(n.events, f.entity) != [])
  {
    var n := Normalized(r);
    KeptFences(r);
    forall f | f in r.fences
      ensures f in n.fences <==> Stream(n.events, f.entity) == []
    {
      WritesAreStreams(r.events, f.entity);
      SortedStreams(r.events, f.entity);
    }
  }

  predicate Representable(events: seq<Event>)
  {
    forall i | 0 <= i < |events| :: -MAX_INT - 1 <= events[i].sequence <= MAX_INT
  }

  /**
    The receipt names the written events in order, and every name reads back as its event's
    entity and sequence exactly when no written stream has the empty ID.
   */
  lemma {:induction false} ReceiptReadsBack(r: SerializedResult)
    requires WellFormed(r) && r.outcome.Some? && Representable(r.events)
    ensures var n := Normalized(r);
            && |n.outcome.value.eventIDs| == |n.events|
            && (forall i | 0 <= i < |n.events| ::
                  ParseEventID(n.outcome.value.eventIDs[i]) ==
                  if n.events[i].entity == "" then None else Some((n.events[i].entity, n.events[i].sequence)))
  {
    var n := Normalized(r);
    SortKeeps(r.events, EventStreamKey);
    forall i | 0 <= i < |n.events|
      ensures ParseEventID(n.outcome.value.eventIDs[i]) ==
              if n.events[i].entity == "" then None else Some((n.events[i].entity, n.events[i].sequence))
    {
      var e := n.events[i];
      assert e in multiset(n.events) && e in r.events;
      StreamMember(r.events, e.entity, e);
      var stream := Stream(r.events, e.entity);
      var j :| 0 <= j < |stream| && stream[j] == e;
      assert StreamOK(stream, true) && EventOK(stream[j], true);
      EventIDParsesBack(e.entity, e.sequence);
    }
  }

  lemma {:induction false} AsciiText(r: SerializedResult, e: Event)
    requires r.events == [e] && r.snapshots == [] && r.fences == []
    requires Ascii(e.id) && Ascii(e.entity) && Ascii(e.entityType) && MetadataText(e.metadata)
    requires r.outcome.Some? && Ascii(r.outcome.value.commandID) && Ascii(r.outcome.value.digest)
    ensures TextOK(r) && ValidText(r.outcome.value.commandID) && ValidText(r.outcome.value.digest)
  {
    AsciiIsValid(e.id);
    AsciiIsValid(e.entity);
    AsciiIsValid(e.entityType);
    AsciiIsValid(r.outcome.value.commandID);
    AsciiIsValid(r.outcome.value.digest);
  }

  lemma {:induction false} OneEventOK(e: Event)
    requires EventOK(e, true)
    ensures StreamsOK([e], true)
  {
    forall entity ensures StreamOK(Stream([e], entity), true) {
      StreamSnoc([], e, entity);
      assert [] + [e] == [e];
    }
  }

  /** A commit to the stream with the empty ID is accepted, and its receipt does not read back. */
  lemma {:induction false} EmptyEntityIsAccepted(metadata: Metadata)
    requires MetadataText(metadata)
    ensures var e := Event(":1", "", "account", 1, "", metadata);
            var r := SerializedResult([e], [], [], [], Some(Outcome("c", "d", Accepted, "", None, [])));
            WellFormed(r) && ParseEventID(Normalized(r).outcome.value.eventIDs[0]).None?
  {
    var e := Event(":1", "", "account", 1, "", metadata);
    var r := SerializedResult([e], [], [], [], Some(Outcome("c", "d", Accepted, "", None, [])));
    assert EventID("", 1) == ":1" && EventOK(e, true);
    AsciiText(r, e);
    OneEventOK(e);
    ReceiptReadsBack(r);
  }

  // ----- Normalizing step by step

  /** The last event of each stream among the first events. */
  ghost predicate LastOf(events: seq<Event>, last: map<string, Event>)
  {
    forall entity :: LastIn(Stream(events, entity), last, entity)
  }

  predicate LastIn(stream: seq<Event>, last: map<string, Event>, entity: string)
  {
    (entity in last <==> stream != []) && (stream != [] ==> last[entity] == stream[|stream| - 1])
  }

  lemma {:induction false} StreamSnoc(events: seq<Event>, e: Event, entity: string)
    ensures Stream(events + [e], entity) == Stream(events, entity) + if e.entity == entity then [e] else []
  {
    if events == [] {
      assert events + [e] == [e];
    } else {
      StreamSnoc(events[1..], e, entity);
      assert (events + [e])[1..] == events[1..] + [e];
    }
  }

  lemma {:induction false} StreamPrefix(events: seq<Event>, n: nat, entity: string)
    requires n <= |events|
    ensures Stream(events[..n], entity) <= Stream(events, entity)
    decreases |events| - n
  {
    if n == |events| {
      assert events[..n] == events;
    } else {
      StreamSnoc(events[..n], events[n], entity);
      assert events[..n + 1] == events[..n] + [events[n]];
      StreamPrefix(events, n + 1, entity);
    }
  }

  /** What one round of the loop checks of event `e` after its stream's earlier events. */
  predicate Extends(before: seq<Event>, e: Event, recorded: bool)
  {
    EventOK(e, recorded) && (before != [] ==> Follows(before[|before| - 1], e))
  }

  lemma {:induction false} ExtendedStream(before: seq<Event>, e: Event, recorded: bool)
    requires StreamOK(before, recorded)
    ensures StreamOK(before + [e], recorded) <==> Extends(before, e, recorded)
  {
    var after := before + [e];
    assert after[|before|] == e && (before != [] ==> after[|before| - 1] == before[|before| - 1]);
  }

  lemma {:induction false} StreamAfter(events: seq<Event>, n: nat, entity: string)
    requires n < |events|
    ensures Stream(events[..n + 1], entity) ==
            if events[n].entity == entity then Stream(events[..n], entity) + [events[n]]
            else Stream(events[..n], entity)
  {
    assert events[..n + 1] == events[..n] + [events[n]];
    StreamSnoc(events[..n], events[n], entity);
  }

  lemma {:induction false} EventFits(events: seq<Event>, n: nat, recorded: bool, last: map<string, Event>)
    requires n < |events| && StreamsOK(events[..n], recorded) && LastOf(events[..n], last)
    requires Extends(Stream(events[..n], events[n].entity), events[n], recorded)
    ensures StreamsOK(events[..n + 1], recorded)
    ensures LastOf(events[..n + 1], last[events[n].entity := events[n]])
  {
    var before, after, e, next := events[..n], events[..n + 1], events[n], last[events[n].entity := events[n]];
    forall entity ensures StreamOK(Stream(after, entity), recorded) {
      StreamAfter(events, n, entity);
      assert StreamOK(Stream(before, entity), recorded);
      ExtendedStream(Stream(before, entity), e, recorded);
    }
    forall entity ensures LastIn(Stream(after, entity), next, entity) {
      StreamAfter(events, n, entity);
      assert LastIn(Stream(before, entity), last, entity);
    }
  }

  lemma {:induction false} EventDoesNotFit(events: seq<Event>, n: nat, recorded: bool)
    requires n < |events| && StreamsOK(events[..n], recorded)
    requires !Extends(Stream(events[..n], events[n].entity), events[n], recorded)
    ensures !StreamsOK(events, recorded)
  {
    var e := events[n];
    assert events[..n + 1] == events[..n] + [e];
    var before := Stream(events[..n], e.entity);
    StreamSnoc(events[..n], e, e.entity);
    ExtendedStream(before, e, recorded);
    StreamPrefix(events, n + 1, e.entity);
    if StreamOK(Stream(events, e.entity), recorded) { PrefixOK(before + [e], Stream(events, e.entity), recorded); }
  }

  lemma {:induction false} PrefixOK(a: seq<Event>, b: seq<Event>, recorded: bool)
    requires a <= b && StreamOK(b, recorded)
    ensures StreamOK(a, recorded)
  {}

  // ----- What an error says

  /** Position `k` of a stream in order so far is the first that is wrong, and this is what is wrong with it. */
  predicate WrongAt(stream: seq<Event>, k: nat, recorded: bool, error: CommitError)
    requires k < |stream|
  {
    var e := stream[k];
    && StreamOK(stream[..k], recorded)
    && match error
       case ReservedEntity(entity) => entity == e.entity && Reserved(entity)
       case WrongEventID(id) =>
         id == e.id && !Reserved(e.entity) && id != EventID(e.entity, e.sequence) && (id != "" || recorded)
       case NotContiguous(id) =>
         id == e.id && (e.sequence < 1 || (k > 0 && (stream[k - 1].sequence == MAX_INT
                                                     || e.sequence != stream[k - 1].sequence + 1)))
       case MixedTypes(entity) =>
         entity == e.entity && k > 0 && stream[k - 1].entityType != e.entityType
         && e.sequence == stream[k - 1].sequence + 1
       case _ => false
  }

  ghost predicate EventsWrong(events: seq<Event>, recorded: bool, error: CommitError)
  {
    exists entity, k: nat | k < |Stream(events, entity)| :: WrongAt(Stream(events, entity), k, recorded, error)
  }

  predicate SnapshotsWrong(snapshots: seq<Snapshot>, events: seq<Event>, error: CommitError)
  {
    match error
    case UncoveredSnapshot(entity) =>
      exists s | s in snapshots :: s.entity == entity && !Covers(s, Stream(events, entity))
    case DuplicateSnapshot(entity) =>
      |Filter((s: Snapshot) => s.entity == entity, snapshots)| >= 2
    case _ => false
  }

  predicate FencesWrong(fences: seq<Fence>, error: CommitError)
  {
    match error
    case ReservedEntity(entity) => Reserved(entity) && exists f | f in fences :: f.entity == entity
    case InvalidHead(entity) => exists f | f in fences :: f.entity == entity && (f.head < 0 || f.head == MAX_INT)
    case DuplicateFence(entity) =>
      |Filter((f: Fence) => f.entity == entity, fences)| >= 2
    case _ => false
  }

  /** The error is of the first check that fails, and names what fails it. */
  ghost predicate Blames(r: SerializedResult, error: CommitError)
  {
    if r.events == [] && r.views != [] then error == ProjectorOnly(|r.views|)
    else if CheckViews(r.views, map[]).Some? then error == InvalidViews
    else if r.outcome.Some? && !OutcomeOK(r.outcome.value) then error == InvalidOutcome
    else if r.outcome.Some? && !TextOK(r) then error == InvalidText
    else if !StreamsOK(r.events, r.outcome.Some?) then EventsWrong(r.events, r.outcome.Some?, error)
    else if !SnapshotsOK(r.snapshots, r.events) then SnapshotsWrong(r.snapshots, r.events, error)
    else FencesWrong(r.fences, error)
  }

  lemma {:induction false} FoundWrong(events: seq<Event>, n: nat, recorded: bool, error: CommitError)
    requires n < |events| && StreamsOK(events[..n], recorded)
    requires var before := Stream(events[..n], events[n].entity);
             WrongAt(before + [events[n]], |before|, recorded, error)
    ensures EventsWrong(events, recorded, error)
  {
    var e := events[n];
    var before, stream := Stream(events[..n], e.entity), Stream(events, e.entity);
    StreamAfter(events, n, e.entity);
    StreamPrefix(events, n + 1, e.entity);
    StillWrong(before + [e], stream, |before|, recorded, error);
  }

  lemma {:induction false} StillWrong(
    a: seq<Event>, b: seq<Event>, k: nat, recorded: bool, error: CommitError)
    requires a <= b && k < |a| && WrongAt(a, k, recorded, error)
    ensures WrongAt(b, k, recorded, error)
  {
    assert b[..k] == a[..k] && b[k] == a[k];
    assert k > 0 ==> b[k - 1] == a[k - 1];
  }

  method CheckEvents(events: seq<Event>, recorded: bool) returns (error: Option<CommitError>, last: map<string, Event>)
    ensures error.None? <==> StreamsOK(events, recorded)
    ensures error.None? ==> LastOf(events, last)
    ensures error.Some? ==> EventsWrong(events, recorded, error.value)
  {
    last := map[];
    var n := 0;
    while n < |events|
      invariant n <= |events|
      invariant StreamsOK(events[..n], recorded) && LastOf(events[..n], last)
    {
      var e := events[n];
      assert LastIn(Stream(events[..n], e.entity), last, e.entity);
      assert Extends(Stream(events[..n], e.entity), e, recorded) <==>
             EventOK(e, recorded) && (e.entity in last ==> Follows(last[e.entity], e));
      if Extends(Stream(events[..n], e.entity), e, recorded) {
        EventFits(events, n, recorded, last);
      } else {
        EventDoesNotFit(events, n, recorded);
      }
      ghost var stream := Stream(events[..n], e.entity);
      assert (stream + [e])[..|stream|] == stream;
      if Reserved(e.entity) {
        FoundWrong(events, n, recorded, ReservedEntity(e.entity));
        return Some(ReservedEntity(e.entity)), last;
      }
      if e.id != EventID(e.entity, e.sequence) && (e.id != "" || recorded) {
        FoundWrong(events, n, recorded, WrongEventID(e.id));
        return Some(WrongEventID(e.id)), last;
      }
      var seen := e.entity in last;
      if e.sequence < 1
         || (seen && (last[e.entity].sequence == MAX_INT || e.sequence != last[e.entity].sequence + 1)) {
        FoundWrong(events, n, recorded, NotContiguous(e.id));
        return Some(NotContiguous(e.id)), last;
      }
      if seen && last[e.entity].entityType != e.entityType {
        FoundWrong(events, n, recorded, MixedTypes(e.entity));
        return Some(MixedTypes(e.entity)), last;
      }
      last := last[e.entity := e];
      n := n + 1;
    }
    assert events[..n] == events;
    error := None;
  }

  /** In sorted order a repeated key is a repeated neighbour. */
  lemma {:induction false} NeighboursDecide<T>(xs: seq<T>, key: T -> Key)
    requires Sorted(xs, key)
    requires forall i | 0 < i < |xs| :: key(xs[i - 1]) != key(xs[i])
    ensures DistinctKeys(xs, key)
  {
    forall i, j | 0 <= i < j < |xs| ensures key(xs[i]) != key(xs[j]) {
      assert key(xs[j - 1]) != key(xs[j]);
      if i < j - 1 && key(xs[i]) == key(xs[j]) { KeyAntisymmetric(key(xs[j - 1]), key(xs[j])); }
    }
  }

  method CheckSnapshots(snapshots: seq<Snapshot>, ghost events: seq<Event>, last: map<string, Event>)
    returns (error: Option<CommitError>)
    requires Sorted(snapshots, SnapshotKey) && LastOf(events, last)
    ensures error.None? <==> SnapshotsOK(snapshots, events)
    ensures error.Some? ==> SnapshotsWrong(snapshots, events, error.value)
  {
    var i := 0;
    while i < |snapshots|
      invariant i <= |snapshots|
      invariant forall j | 0 <= j < i :: Covers(snapshots[j], Stream(events, snapshots[j].entity))
      invariant forall j | 0 < j < i :: SnapshotKey(snapshots[j - 1]) != SnapshotKey(snapshots[j])
    {
      var s := snapshots[i];
      assert LastIn(Stream(events, s.entity), last, s.entity);
      if s.entity !in last || s.eventSequence != last[s.entity].sequence
         || s.entityType != last[s.entity].entityType || s.sequence < 1 {
        assert !Covers(s, Stream(events, s.entity));
        return Some(UncoveredSnapshot(s.entity));
      }
      if i > 0 && snapshots[i - 1].entity == s.entity {
        assert SnapshotKey(snapshots[i - 1]) == SnapshotKey(s);
        FilterTwo((x: Snapshot) => x.entity == s.entity, snapshots, i - 1, i);
        return Some(DuplicateSnapshot(s.entity));
      }
      i := i + 1;
    }
    NeighboursDecide(snapshots, SnapshotKey);
    error := None;
  }

  /** The fences passed so far are acceptable, each unlike the one before it. */
  predicate Passed(fences: seq<Fence>, n: nat)
    requires n <= |fences|
  {
    && (forall j | 0 <= j < n :: FenceOK(fences[j]))
    && (forall j | 0 < j < n :: FenceKey(fences[j - 1]) != FenceKey(fences[j]))
  }

  predicate Passes(fences: seq<Fence>, n: nat)
    requires n < |fences|
  {
    FenceOK(fences[n]) && (n > 0 ==> fences[n - 1].entity != fences[n].entity)
  }

  lemma {:induction false} FencePasses(fences: seq<Fence>, n: nat)
    requires n < |fences| && Passed(fences, n)
    ensures Passes(fences, n) ==> Passed(fences, n + 1)
    ensures !Passes(fences, n) ==> !FencesOK(fences)
  {
    assert n > 0 ==> (FenceKey(fences[n - 1]) == FenceKey(fences[n]) <==> fences[n - 1].entity == fences[n].entity);
  }

  lemma {:induction false} FenceWrong(fences: seq<Fence>, n: nat)
    requires n < |fences|
    ensures var f := fences[n];
            && (Reserved(f.entity) ==> FencesWrong(fences, ReservedEntity(f.entity)))
            && (f.head < 0 || f.head == MAX_INT ==> FencesWrong(fences, InvalidHead(f.entity)))
            && (n > 0 && fences[n - 1].entity == f.entity ==> FencesWrong(fences, DuplicateFence(f.entity)))
  {
    var f := fences[n];
    assert f in fences;
    if n > 0 && fences[n - 1].entity == f.entity {
      FilterTwo((x: Fence) => x.entity == f.entity, fences, n - 1, n);
    }
  }

  lemma {:induction false} AllPassed(fences: seq<Fence>)
    requires Sorted(fences, FenceKey) && Passed(fences, |fences|)
    ensures FencesOK(fences)
  {
    NeighboursDecide(fences, FenceKey);
  }

  /** The array holds the kept fences at its front and is untouched from index `n - 1` on. */
  predicate KeptSoFar(before: seq<Fence>, now: seq<Fence>, n: nat, kept: nat, p: Fence -> bool)
  {
    && kept <= n <= |before| == |now|
    && now[..kept] == Filter(p, before[..n])
    && now[n..] == before[n..]
    && (n > 0 ==> now[n - 1] == before[n - 1])
  }

  lemma {:induction false} KeptStep(before: seq<Fence>, n: nat, p: Fence -> bool)
    requires n < |before|
    ensures Filter(p, before[..n + 1]) == Filter(p, before[..n]) + if p(before[n]) then [before[n]] else []
  {
    FilterSnoc(p, before[..n], before[n]);
    assert before[..n + 1] == before[..n] + [before[n]];
  }

  lemma {:induction false} KeepStep(before: seq<Fence>, now: seq<Fence>, n: nat, kept: nat, p: Fence -> bool)
    requires KeptSoFar(before, now, n, kept, p) && n < |before|
    ensures now[n] == before[n]
    ensures p(now[n]) ==> KeptSoFar(before, now[kept := now[n]], n + 1, kept + 1, p)
    ensures !p(now[n]) ==> KeptSoFar(before, now, n + 1, kept, p)
  {
    KeptStep(before, n, p);
    assert Filter(p, before[..n]) + [] == Filter(p, before[..n]);
  }

  /**
    Checks the fences and drops those of written streams, compacting the array in place: kept
    fences move down over ones already passed, so the neighbour compared next is still the one
    that was there.
   */
  method KeepFences(fences: array<Fence>, last: map<string, Event>) returns (error: Option<CommitError>, kept: nat)
    requires Sorted(fences[..], FenceKey)
    modifies fences
    ensures error.None? <==> FencesOK(old(fences[..]))
    ensures error.Some? ==> FencesWrong(old(fences[..]), error.value)
    ensures error.None? ==> kept <= fences.Length && fences[..kept] == Filter(Unwritten(last.Keys), old(fences[..]))
  {
    kept := 0;
    ghost var before, p := fences[..], Unwritten(last.Keys);
    var n := 0;
    while n < fences.Length
      invariant KeptSoFar(before, fences[..], n, kept, p)
      invariant Passed(before, n)
    {
      var f := fences[n];
      FencePasses(before, n);
      KeepStep(before, fences[..], n, kept, p);
      assert n > 0 ==> fences[n - 1] == before[n - 1];
      FenceWrong(before, n);
      if Reserved(f.entity) {
        return Some(ReservedEntity(f.entity)), kept;
      }
      if f.head < 0 || f.head == MAX_INT {
        return Some(InvalidHead(f.entity)), kept;
      }
      if n > 0 && fences[n - 1].entity == f.entity {
        return Some(DuplicateFence(f.entity)), kept;
      }
      if f.entity !in last {
        ghost var now := fences[..];
        fences[kept] := f;
        assert fences[..] == now[kept := f];
        kept := kept + 1;
      }
      n := n + 1;
    }
    assert before[..n] == before && fences[..kept] == fences[..][..kept];
    AllPassed(before);
    error := None;
  }

  /** An unstable sort: callers learn that the result is ordered and a permutation, and no more. */
  method SortUnstable<T>(xs: seq<T>, key: T -> Key) returns (ys: seq<T>)
    ensures Sorted(ys, key) && multiset(ys) == multiset(xs)
  {
    SortKeeps(xs, key);
    ys := Sort(xs, key);
  }

  /** With distinct keys every unstable sort gives the stable one. */
  lemma {:induction false} UnstableIsStable<T>(xs: seq<T>, ys: seq<T>, key: T -> Key)
    requires Sorted(ys, key) && multiset(ys) == multiset(xs) && DistinctKeys(ys, key)
    ensures ys == Sort(xs, key)
  {
    SortIgnoresOrder(ys, xs, key);
    SortFixed(ys, key);
  }

  lemma {:induction false} LastKeys(events: seq<Event>, last: map<string, Event>)
    requires LastOf(events, last)
    ensures last.Keys == Writes(events)
  {
    forall entity ensures entity in last.Keys <==> entity in Writes(events) {
      WritesAreStreams(events, entity);
      assert LastIn(Stream(events, entity), last, entity);
    }
  }

  /** What is wrong with the sorted parts is wrong with the commit as it was given. */
  lemma {:induction false} PartsBlame(
    r: SerializedResult, events: seq<Event>, snapshots: seq<Snapshot>, fences: seq<Fence>, error: CommitError)
    requires forall entity :: Stream(events, entity) == Stream(r.events, entity)
    requires multiset(snapshots) == multiset(r.snapshots) && multiset(fences) == multiset(r.fences)
    ensures EventsWrong(events, r.outcome.Some?, error) ==> EventsWrong(r.events, r.outcome.Some?, error)
    ensures SnapshotsWrong(snapshots, events, error) ==> SnapshotsWrong(r.snapshots, r.events, error)
    ensures FencesWrong(fences, error) ==> FencesWrong(r.fences, error)
  {
    forall s | s in snapshots ensures s in r.snapshots { assert s in multiset(snapshots); }
    forall f | f in fences ensures f in r.fences { assert f in multiset(fences); }
    if error.DuplicateSnapshot? {
      SameCount((s: Snapshot) => s.entity == error.entity, snapshots, r.snapshots);
    }
    if error.DuplicateFence? {
      SameCount((f: Fence) => f.entity == error.entity, fences, r.fences);
    }
    if EventsWrong(events, r.outcome.Some?, error) {
      var entity, k: nat :| k < |Stream(events, entity)| && WrongAt(Stream(events, entity), k, r.outcome.Some?, error);
      assert WrongAt(Stream(r.events, entity), k, r.outcome.Some?, error);
    }
  }

  lemma {:induction false} SameCount<T>(p: T -> bool, xs: seq<T>, ys: seq<T>)
    requires multiset(xs) == multiset(ys)
    ensures |Filter(p, xs)| == |Filter(p, ys)|
  {
    FilterPermutes(p, xs, ys);
    assert |Filter(p, xs)| == |multiset(Filter(p, xs))|;
  }

  /** The checks made on sorted parts decide the commit as it was given. */
  lemma {:induction false} PartsDecide(
    r: SerializedResult, events: seq<Event>, snapshots: seq<Snapshot>, fences: seq<Fence>)
    requires Prechecked(r)
    requires events == Sort(r.events, EventStreamKey)
    requires multiset(snapshots) == multiset(r.snapshots) && multiset(fences) == multiset(r.fences)
    ensures StreamsOK(events, r.outcome.Some?) <==> StreamsOK(r.events, r.outcome.Some?)
    ensures SnapshotsOK(snapshots, events) <==> SnapshotsOK(r.snapshots, r.events)
    ensures FencesOK(fences) <==> FencesOK(r.fences)
    ensures forall entity :: Stream(events, entity) == Stream(r.events, entity)
  {
    forall entity ensures Stream(events, entity) == Stream(r.events, entity) { SortedStreams(r.events, entity); }
    if SnapshotsOK(snapshots, events) { SnapshotsOKTransfers(snapshots, r.snapshots, events, r.events); }
    if SnapshotsOK(r.snapshots, r.events) { SnapshotsOKTransfers(r.snapshots, snapshots, r.events, events); }
    if FencesOK(fences) { FencesOKTransfers(fences, r.fences); }
    if FencesOK(r.fences) { FencesOKTransfers(r.fences, fences); }
  }

  method NormalizeCommit(r: SerializedResult) returns (n: Result<SerializedResult, CommitError>)
    ensures n.Ok? <==> WellFormed(r)
    ensures n.Ok? ==> n.value == Normalized(r)
    ensures n.Err? ==> Blames(r, n.error)
  {
    if r.events == [] && r.views != [] {
      return Err(ProjectorOnly(|r.views|));
    }
    if CheckViews(r.views, map[]).Some? {
      return Err(InvalidViews);
    }
    if r.outcome.Some? && !OutcomeOK(r.outcome.value) {
      return Err(InvalidOutcome);
    }
    if r.outcome.Some? && !TextOK(r) {
      return Err(InvalidText);
    }
    var events := Sort(r.events, EventStreamKey);
    var snapshots := SortUnstable(r.snapshots, SnapshotKey);
    var sorted := SortUnstable(r.fences, FenceKey);
    var fences := new Fence[|sorted|](i requires 0 <= i < |sorted| => sorted[i]);
    assert fences[..] == sorted;
    PartsDecide(r, events, snapshots, sorted);

    var error, last := CheckEvents(events, r.outcome.Some?);
    if error.Some? {
      PartsBlame(r, events, snapshots, sorted, error.value);
      return Err(error.value);
    }
    error := CheckSnapshots(snapshots, events, last);
    if error.Some? {
      PartsBlame(r, events, snapshots, sorted, error.value);
      return Err(error.value);
    }
    var kept;
    error, kept := KeepFences(fences, last);
    if error.Some? {
      PartsBlame(r, events, snapshots, sorted, error.value);
      return Err(error.value);
    }
    Assembled(r, events, snapshots, sorted, last);
    var outcome := None;
    if r.outcome.Some? {
      outcome := Some(r.outcome.value.(eventIDs := IDs(events)));
    }
    n := Ok(SerializedResult(events, snapshots, fences[..kept], r.views, outcome));
  }

  lemma {:induction false} Assembled(
    r: SerializedResult, events: seq<Event>, snapshots: seq<Snapshot>, fences: seq<Fence>, last: map<string, Event>)
    requires events == Sort(r.events, EventStreamKey) && LastOf(events, last)
    requires Sorted(snapshots, SnapshotKey) && multiset(snapshots) == multiset(r.snapshots)
             && SnapshotsOK(snapshots, events)
    requires Sorted(fences, FenceKey) && multiset(fences) == multiset(r.fences) && FencesOK(fences)
    ensures Normalized(r).snapshots == snapshots
    ensures Normalized(r).fences == Filter(Unwritten(last.Keys), fences)
  {
    UnstableIsStable(r.snapshots, snapshots, SnapshotKey);
    UnstableIsStable(r.fences, fences, FenceKey);
    LastKeys(events, last);
    forall entity ensures Stream(events, entity) == Stream(r.events, entity) { SortedStreams(r.events, entity); }
    SameWrites(events, r.events);
  }
}
