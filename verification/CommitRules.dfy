/**
  What a commit may be, said of the commit as it is given: event by event against the nearest
  earlier event of its stream, snapshot by snapshot against the last event of its stream, and
  field by field for fences, outcome and text. The canonicalizer works on sorted parts and
  compares neighbours; it accepts exactly these commits.
 */
module CommitRules {
  import opened Basics
  import opened Order
  import opened CommitLog
  import opened Projection
  import opened Commit

  /** Event `i` is the nearest one before position `j` in its stream. */
  predicate Nearest(events: seq<Event>, entity: string, i: nat, j: nat)
    requires i < j <= |events|
  {
    events[i].entity == entity && forall k | i < k < j :: events[k].entity != entity
  }

  predicate NameableStream(entity: string)
  {
    !("SYSTEM#" <= entity) && !("command-outcome#" <= entity)
  }

  /** Event `j` is named by its stream and sequence and continues its stream. */
  predicate EventInPlace(events: seq<Event>, j: nat, recorded: bool)
    requires j < |events|
  {
    var e := events[j];
    && NameableStream(e.entity) && e.sequence >= 1
    && (e.id == e.entity + ":" + FormatInt(e.sequence) || (e.id == "" && !recorded))
    && forall i | 0 <= i < j && Nearest(events, e.entity, i, j) ::
         events[i].sequence != 0x7fff_ffff_ffff_ffff && e.sequence == events[i].sequence + 1
         && e.entityType == events[i].entityType
  }

  /** The last event of a stream so far is the nearest one to the end. */
  lemma {:induction false} LastIsNearest(events: seq<Event>, n: nat, entity: string)
    requires n <= |events|
    ensures var stream := Stream(events[..n], entity);
            if stream == [] then forall k | 0 <= k < n :: events[k].entity != entity
            else exists i | 0 <= i < n :: Nearest(events, entity, i, n) && events[i] == stream[|stream| - 1]
  {
    if n > 0 {
      LastIsNearest(events, n - 1, entity);
      StreamAfter(events, n - 1, entity);
      var stream := Stream(events[..n - 1], entity);
      if events[n - 1].entity == entity {
        assert Nearest(events, entity, n - 1, n);
        assert Stream(events[..n], entity)[|stream|] == events[n - 1];
      } else if stream != [] {
        var i :| 0 <= i < n - 1 && Nearest(events, entity, i, n - 1) && events[i] == stream[|stream| - 1];
        assert Nearest(events, entity, i, n);
      }
    }
  }

  lemma {:induction false} InPlaceExtends(events: seq<Event>, n: nat, recorded: bool)
    requires n < |events|
    ensures Extends(Stream(events[..n], events[n].entity), events[n], recorded) <==> EventInPlace(events, n, recorded)
  {
    var e := events[n];
    LastIsNearest(events, n, e.entity);
    forall i, k | 0 <= i < n && 0 <= k < n && Nearest(events, e.entity, i, n) && Nearest(events, e.entity, k, n)
      ensures i == k
    {}
  }

  lemma {:induction false} OneMoreInPlace(events: seq<Event>, n: nat, recorded: bool)
    requires n < |events|
    ensures StreamsOK(events[..n + 1], recorded) <==>
            StreamsOK(events[..n], recorded) && EventInPlace(events, n, recorded)
  {
    var before, after, e := events[..n], events[..n + 1], events[n];
    InPlaceExtends(events, n, recorded);
    forall entity ensures StreamOK(Stream(after, entity), recorded) ==> StreamOK(Stream(before, entity), recorded) {
      StreamAfter(events, n, entity);
      if StreamOK(Stream(after, entity), recorded) {
        PrefixOK(Stream(before, entity), Stream(after, entity), recorded);
      }
    }
    forall entity | StreamOK(Stream(before, entity), recorded)
      ensures StreamOK(Stream(after, entity), recorded) <==>
              entity != e.entity || EventInPlace(events, n, recorded)
    {
      StreamAfter(events, n, entity);
      ExtendedStream(Stream(before, entity), e, recorded);
    }
  }

  /** Every stream of the commit is in order exactly when every event is in place. */
  lemma {:induction false} StreamsExactly(events: seq<Event>, n: nat, recorded: bool)
    requires n <= |events|
    ensures StreamsOK(events[..n], recorded) <==> forall j | 0 <= j < n :: EventInPlace(events, j, recorded)
  {
    if n == 0 {
      forall entity ensures StreamOK(Stream(events[..0], entity), recorded) { assert events[..0] == []; }
    } else {
      StreamsExactly(events, n - 1, recorded);
      OneMoreInPlace(events, n - 1, recorded);
    }
  }

  /** The snapshot is of the last event this commit writes to its stream. */
  predicate OfLastEvent(s: Snapshot, events: seq<Event>)
  {
    s.sequence >= 1
    && exists i | 0 <= i < |events| ::
         Nearest(events, s.entity, i, |events|)
         && s.eventSequence == events[i].sequence && s.entityType == events[i].entityType
  }

  lemma {:induction false} CoversExactly(s: Snapshot, events: seq<Event>)
    ensures Covers(s, Stream(events, s.entity)) <==> OfLastEvent(s, events)
  {
    LastIsNearest(events, |events|, s.entity);
    assert events[..|events|] == events;
    forall i, k | 0 <= i < |events| && 0 <= k < |events|
                  && Nearest(events, s.entity, i, |events|) && Nearest(events, s.entity, k, |events|)
      ensures i == k
    {}
  }

  predicate StorableOutcome(o: Outcome)
  {
    && 1 <= |o.commandID| <= 512 && ValidText(o.commandID) && o.digest != "" && ValidText(o.digest)
    && |o.response| <= 65536
    && ((o.status.Accepted? && o.rejection.None?)
        || (o.status.Rejected? && o.rejection.Some? && o.rejection.value.code != ""
            && ValidText(o.rejection.value.code) && ValidText(o.rejection.value.message)))
  }

  predicate StorableMetadata(m: Metadata)
  {
    && ValidText(m.commitID)
    && (m.commandID.Some? ==> ValidText(m.commandID.value))
    && (m.causationID.Some? ==> ValidText(m.causationID.value))
    && (m.extensions.Some? ==>
          forall k | k in m.extensions.value :: ValidText(k) && ValidText(m.extensions.value[k]))
  }

  predicate StorableText(r: SerializedResult)
  {
    && (forall i | 0 <= i < |r.events| ::
          && ValidText(r.events[i].id) && ValidText(r.events[i].entity) && ValidText(r.events[i].entityType)
          && StorableMetadata(r.events[i].metadata))
    && (forall i | 0 <= i < |r.snapshots| :: ValidText(r.snapshots[i].entity) && ValidText(r.snapshots[i].entityType))
    && (forall i | 0 <= i < |r.fences| :: ValidText(r.fences[i].entity) && ValidText(r.fences[i].entityType))
  }

  predicate FencesInPlace(fences: seq<Fence>)
  {
    && (forall i, j | 0 <= i < j < |fences| :: fences[i].entity != fences[j].entity)
    && (forall i | 0 <= i < |fences| ::
          NameableStream(fences[i].entity) && fences[i].head >= 0 && fences[i].head != 0x7fff_ffff_ffff_ffff)
  }

  predicate SnapshotsInPlace(snapshots: seq<Snapshot>, events: seq<Event>)
  {
    && (forall i, j | 0 <= i < j < |snapshots| :: snapshots[i].entity != snapshots[j].entity)
    && (forall i | 0 <= i < |snapshots| :: OfLastEvent(snapshots[i], events))
  }

  lemma {:induction false} SnapshotsExactly(snapshots: seq<Snapshot>, events: seq<Event>)
    ensures SnapshotsOK(snapshots, events) <==> SnapshotsInPlace(snapshots, events)
  {
    forall i | 0 <= i < |snapshots|
      ensures Covers(snapshots[i], Stream(events, snapshots[i].entity)) <==> OfLastEvent(snapshots[i], events)
    {
      CoversExactly(snapshots[i], events);
    }
    forall i, j | 0 <= i < j < |snapshots|
      ensures SnapshotKey(snapshots[i]) != SnapshotKey(snapshots[j]) <==> snapshots[i].entity != snapshots[j].entity
    {}
  }

  lemma {:induction false} FencesExactly(fences: seq<Fence>)
    ensures FencesOK(fences) <==> FencesInPlace(fences)
  {
    forall i, j | 0 <= i < j < |fences|
      ensures FenceKey(fences[i]) != FenceKey(fences[j]) <==> fences[i].entity != fences[j].entity
    {}
  }

  lemma {:induction false} PrecheckedExactly(r: SerializedResult)
    ensures Prechecked(r) <==>
            && (r.events != [] || r.views == [])
            && CheckViews(r.views, map[]).None?
            && (r.outcome.Some? ==> StorableOutcome(r.outcome.value) && StorableText(r))
  {
    TextExactly(r);
  }

  lemma {:induction false} TextExactly(r: SerializedResult)
    ensures TextOK(r) <==> StorableText(r)
  {
    forall m: Metadata ensures MetadataText(m) <==> StorableMetadata(m) {}
    assert forall i | 0 <= i < |r.events| :: r.events[i] in r.events;
    assert forall i | 0 <= i < |r.snapshots| :: r.snapshots[i] in r.snapshots;
    assert forall i | 0 <= i < |r.fences| :: r.fences[i] in r.fences;
    if TextOK(r) {
      assert forall i | 0 <= i < |r.events| :: EventText(r.events[i]);
    }
  }

  /** A commit is accepted exactly when each of its parts, as given, is in place. */
  lemma {:induction false} AcceptedExactly(r: SerializedResult)
    ensures WellFormed(r) <==>
            && (r.events != [] || r.views == [])
            && CheckViews(r.views, map[]).None?
            && (r.outcome.Some? ==> StorableOutcome(r.outcome.value) && StorableText(r))
            && (forall j | 0 <= j < |r.events| :: EventInPlace(r.events, j, r.outcome.Some?))
            && SnapshotsInPlace(r.snapshots, r.events)
            && FencesInPlace(r.fences)
  {
    PrecheckedExactly(r);
    StreamsExactly(r.events, |r.events|, r.outcome.Some?);
    assert r.events[..|r.events|] == r.events;
    SnapshotsExactly(r.snapshots, r.events);
    FencesExactly(r.fences);
  }

  /** Apart from order, dropped fences and the receipt, canonicalizing changes nothing. */
  lemma {:induction false} NothingElseChanges(r: SerializedResult)
    requires WellFormed(r)
    ensures var n := Normalized(r);
            && multiset(n.events) == multiset(r.events) && multiset(n.snapshots) == multiset(r.snapshots)
            && (forall f :: f in n.fences <==> f in r.fences && forall e | e in r.events :: e.entity != f.entity)
            && n.views == r.views
            && (if r.outcome.None? then n.outcome.None?
                else
                  && n.outcome.Some? && n.outcome.value.(eventIDs := []) == r.outcome.value.(eventIDs := [])
                  && |n.outcome.value.eventIDs| == |n.events|
                  && forall i | 0 <= i < |n.events| :: n.outcome.value.eventIDs[i] == n.events[i].id)
    ensures var n := Normalized(r);
            && (forall i, j | 0 <= i < j < |n.events| ::
                  n.events[i].entity == n.events[j].entity || StrLess(n.events[i].entity, n.events[j].entity))
            && (forall i, j | 0 <= i < j < |n.snapshots| :: StrLess(n.snapshots[i].entity, n.snapshots[j].entity))
            && (forall i, j | 0 <= i < j < |n.fences| :: StrLess(n.fences[i].entity, n.fences[j].entity))
  {
    var n := Normalized(r);
    SortKeeps(r.events, EventStreamKey);
    SortKeeps(r.snapshots, SnapshotKey);
    KeptFences(r);
    NormalizedIsWellFormed(r);
    forall f: Fence ensures f.entity !in Writes(r.events) <==> forall e | e in r.events :: e.entity != f.entity {
      UnwrittenExactly(r.events, f.entity);
    }
    DistinctAscend(n.snapshots, SnapshotKey);
    DistinctAscend(n.fences, FenceKey);
  }

  lemma {:induction false} UnwrittenExactly(events: seq<Event>, entity: string)
    ensures entity !in Writes(events) <==> forall e | e in events :: e.entity != entity
  {
    if e :| e in events && e.entity == entity {
      var i :| 0 <= i < |events| && events[i] == e;
      assert events[i].entity in Writes(events);
    }
  }

  lemma {:induction false} DistinctAscend<T>(xs: seq<T>, key: T -> Key)
    requires Sorted(xs, key) && DistinctKeys(xs, key)
    ensures forall i, j | 0 <= i < j < |xs| && key(xs[i]).1 == key(xs[j]).1 == "" && key(xs[i]).2 == key(xs[j]).2 ::
              StrLess(key(xs[i]).0, key(xs[j]).0)
  {
    forall i, j | 0 <= i < j < |xs| && key(xs[i]).1 == key(xs[j]).1 == "" && key(xs[i]).2 == key(xs[j]).2
      ensures StrLess(key(xs[i]).0, key(xs[j]).0)
    {
      assert KeyLeq(key(xs[i]), key(xs[j])) && key(xs[i]) != key(xs[j]);
    }
  }
}
