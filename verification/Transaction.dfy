/**
  Multi-stream transactions: streams are read, events appended to some of them, and everything
  read is either written or fenced by one commit. What the commit's conditions then guarantee is
  that every stream the transaction read is, when the commit applies, at exactly the head it
  was loaded at.
 */
module Transaction {
  import opened Basics
  import opened Sequences
  import opened CommitLog
  import opened Commit
  import opened StreamStore
  import opened Load

  /** A stream of the read set: what was loaded, and the state and events appended since. */
  datatype TxStream = TxStream(entityType: string, loaded: Loaded, state: string, pending: seq<Fact>)

  function FoldFacts(m: Machine, state: Option<string>, facts: seq<Fact>): Option<string>
  {
    if facts == [] then state
    else
      var before := FoldFacts(m, state, facts[..|facts| - 1]);
      if before.None? then None else m.apply(before.value, facts[|facts| - 1])
  }

  lemma {:induction false} FoldFactsSnoc(m: Machine, state: Option<string>, facts: seq<Fact>, fact: Fact)
    ensures FoldFacts(m, state, facts + [fact]) ==
            var before := FoldFacts(m, state, facts);
            if before.None? then None else m.apply(before.value, fact)
  {}

  // ----- Serializing a stream's events

  function Serialized(id: string, head: int, facts: seq<Fact>, metadata: Metadata): seq<Event>
  {
    seq(|facts|, i requires 0 <= i < |facts| =>
      Event(EventID(id, head + i + 1), id, facts[i].entityType, head + i + 1, facts[i].payload, metadata))
  }

  method SerializeEvents(id: string, head: int, facts: seq<Fact>, metadata: Metadata) returns (events: seq<Event>)
    ensures events == Serialized(id, head, facts, metadata)
  {
    events := [];
    var sequence, i := head, 0;
    while i < |facts|
      invariant i <= |facts| && sequence == head + i
      invariant events == Serialized(id, head, facts[..i], metadata)
    {
      sequence := sequence + 1;
      events := events + [Event(EventID(id, sequence), id, facts[i].entityType, sequence, facts[i].payload, metadata)];
      i := i + 1;
    }
    assert facts[..i] == facts;
  }

  lemma {:induction false} SerializedSnoc(id: string, head: int, facts: seq<Fact>, metadata: Metadata)
    requires facts != []
    ensures var n := |facts| - 1;
            var e := Event(EventID(id, head + n + 1), id, facts[n].entityType, head + n + 1, facts[n].payload,
                           metadata);
            Serialized(id, head, facts, metadata) == Serialized(id, head, facts[..n], metadata) + [e]
  {}

  /** Folding the serialized events after a history is applying the facts to its state. */
  lemma {:induction false} SerializedFold(
    m: Machine, id: string, h: seq<Event>, head: int, facts: seq<Fact>, metadata: Metadata)
    ensures Fold(m, id, h + Serialized(id, head, facts, metadata)) == FoldFacts(m, Fold(m, id, h), facts)
  {
    if facts == [] {
      assert h + Serialized(id, head, facts, metadata) == h;
    } else {
      var n := |facts| - 1;
      SerializedFold(m, id, h, head, facts[..n], metadata);
      SerializedSnoc(id, head, facts, metadata);
      var before, e := Serialized(id, head, facts[..n], metadata), Serialized(id, head, facts, metadata)[n];
      assert h + (before + [e]) == (h + before) + [e];
    }
  }

  // ----- What a transaction commits

  function EngineFence(id: string, s: TxStream): Fence
  {
    Fence(id, s.entityType, s.loaded.head, false)
  }

  function EventsOf(streams: map<string, TxStream>, metadata: Metadata): string -> seq<Event>
  {
    id => if id in streams then Serialized(id, streams[id].loaded.head, streams[id].pending, metadata) else []
  }

  /** The engine's own fences: every read when nothing is written, else every unwritten read. */
  function FencesOf(streams: map<string, TxStream>, write: bool): string -> seq<Fence>
  {
    id => if id in streams && !(write && streams[id].pending != []) then [EngineFence(id, streams[id])] else []
  }

  /** When snapshots are taken: every so many events of a type, unless one is too large to write. */
  datatype Interval = Interval(size: int, overrides: map<string, int>, fits: Snapshot -> bool)
  {
    function SizeOf(entityType: string): int
    {
      if entityType in overrides then overrides[entityType] else size
    }
  }

  /** The snapshot of a stream with its appended events. */
  function Captured(id: string, s: TxStream): Snapshot
  {
    Snapshot(id, s.entityType, s.loaded.snapshot + 1, s.loaded.head + |s.pending|, s.state)
  }

  predicate TakesSnapshot(s: TxStream, id: string, interval: Interval)
  {
    && 0 <= s.loaded.head && interval.fits(Captured(id, s))
    && CalculateAdditionalEvents(s.loaded.head, |s.pending|, interval.SizeOf(s.entityType)) > 0
  }

  function SnapshotsOf(streams: map<string, TxStream>, interval: Interval): string -> seq<Snapshot>
  {
    id => if id in streams && TakesSnapshot(streams[id], id, interval) then [Captured(id, streams[id])] else []
  }

  function Unread(streams: map<string, TxStream>): Fence -> bool
  {
    (f: Fence) => f.entity !in streams
  }

  /** The commit of a transaction that writes its events: events, snapshots and fences. */
  function Prepared(
    order: seq<string>, streams: map<string, TxStream>, fences: seq<Fence>, metadata: Metadata,
    interval: Interval): SerializedResult
  {
    SerializedResult(
      FlatMap(EventsOf(streams, metadata), order),
      FlatMap(SnapshotsOf(streams, interval), order),
      Filter(Unread(streams), fences) + FlatMap(FencesOf(streams, true), order),
      [], None)
  }

  /** The commit of a rejection: nothing but the fences of everything read. */
  function FencedReads(order: seq<string>, streams: map<string, TxStream>, fences: seq<Fence>): SerializedResult
  {
    SerializedResult([], [], Filter(Unread(streams), fences) + FlatMap(FencesOf(streams, false), order), [], None)
  }

  ghost predicate Lists(order: seq<string>, streams: map<string, TxStream>)
  {
    NoRepeats(order) && forall id :: id in order <==> id in streams
  }

  datatype TxError =
    | Consumed | DuplicateRead(entity: string) | LoadFailed(result: LoadResult)
    | NotRead(entity: string) | WrongType(entity: string) | FactRefused(entity: string)
    | NegativeHead(entity: string) | ExpectedTwice(entity: string) | ExpectedUnread
    | DuplicateCommand

  datatype StaleVersion = StaleVersion(entity: string, expected: int, actual: int)

  // ----- The transaction

  class Tx {
    var used: bool
    var streams: map<string, TxStream>
    var order: seq<string>
    var fences: seq<Fence>
    var expected: map<string, int>

    /** While it can still commit, every stream's state is its loaded state plus its appended facts. */
    ghost predicate Valid(m: Machine)
      reads this
    {
      && Lists(order, streams)
      && (!used ==> forall id | id in streams :: Accurate(m, streams[id]))
      && (forall i | 0 <= i < |fences| :: fences[i].callerStamped)
    }

    constructor (m: Machine)
      ensures Valid(m) && !used && streams == map[] && order == [] && fences == [] && expected == map[]
    {
      used, streams, order, fences, expected := false, map[], [], [], map[];
    }

    method Read(ghost m: Machine, id: string, entityType: string, result: LoadResult) returns (error: Option<TxError>)
      requires Valid(m)
      modifies this
      ensures Valid(m) && fences == old(fences) && expected == old(expected)
      ensures error == if old(used) then Some(Consumed) else if id in old(streams) then Some(DuplicateRead(id))
                       else if result.Found? then None else Some(LoadFailed(result))
      ensures error.None? ==> !used && order == old(order) + [id]
                              && streams == old(streams)[
                                              id := TxStream(entityType, result.loaded, result.loaded.state, [])]
      ensures error.Some? ==> streams == old(streams) && order == old(order)
                              && (used <==> old(used) || (id !in old(streams) && !result.Found?))
    {
      if used {
        return Some(Consumed);
      }
      if id in streams {
        return Some(DuplicateRead(id));
      }
      if !result.Found? {
        used := true;
        return Some(LoadFailed(result));
      }
      streams := streams[id := TxStream(entityType, result.loaded, result.loaded.state, [])];
      order := order + [id];
      error := None;
    }

    method Append(m: Machine, id: string, facts: seq<Fact>) returns (error: Option<TxError>)
      requires Valid(m)
      modifies this
      ensures Valid(m) && order == old(order) && fences == old(fences) && expected == old(expected)
      ensures streams.Keys == old(streams).Keys
      ensures error.None? <==> !old(used) && id in old(streams)
                               && (forall i | 0 <= i < |facts| :: facts[i].entityType == old(streams)[id].entityType)
                               && FoldFacts(m, Some(old(streams)[id].state), facts).Some?
      ensures error.None? ==> !used && streams == old(streams)[id := old(streams)[id].(
                                state := FoldFacts(m, Some(old(streams)[id].state), facts).value,
                                pending := old(streams)[id].pending + facts)]
      ensures error.Some? && id in old(streams) ==> used
      ensures old(used) ==> error == Some(Consumed)
      ensures !old(used) && id !in old(streams) ==> error == Some(NotRead(id)) && !used && streams == old(streams)
      ensures !old(used) && id in old(streams) && error.Some? ==>
                exists i: nat | i < |facts| :: StopsAt(m, old(streams)[id], id, facts, i, error.value)
    {
      if used {
        return Some(Consumed);
      }
      if id !in streams {
        return Some(NotRead(id));
      }
      var before := streams[id];
      var state, i := before.state, 0;
      while i < |facts|
        invariant i <= |facts|
        invariant forall j | 0 <= j < i :: facts[j].entityType == before.entityType
        invariant FoldFacts(m, Some(before.state), facts[..i]) == Some(state)
        invariant !used && streams == old(streams) && order == old(order) && fences == old(fences)
                  && expected == old(expected)
      {
        if facts[i].entityType != before.entityType {
          used, streams := true, streams[id := before.(state := state)];
          assert StopsAt(m, before, id, facts, i, WrongType(id));
          return Some(WrongType(id));
        }
        FoldFactsSnoc(m, Some(before.state), facts[..i], facts[i]);
        assert facts[..i + 1] == facts[..i] + [facts[i]];
        var next := m.apply(state, facts[i]);
        if next.None? {
          FactsRefused(m, Some(before.state), facts, i + 1);
          used, streams := true, streams[id := before.(state := state)];
          assert StopsAt(m, before, id, facts, i, FactRefused(id));
          return Some(FactRefused(id));
        }
        state := next.value;
        i := i + 1;
      }
      assert facts[..i] == facts;
      AccurateAfter(m, before, facts, state);
      streams := streams[id := before.(state := state, pending := before.pending + facts)];
      error := None;
    }

    method AddFence(ghost m: Machine, fence: Fence) returns (error: Option<TxError>)
      requires Valid(m)
      modifies this`fences
      ensures Valid(m)
      ensures error == if used then Some(Consumed) else None
      ensures fences == if used || fence.entity in streams then old(fences)
                        else old(fences) + [fence.(callerStamped := true)]
    {
      if used {
        return Some(Consumed);
      }
      error := None;
      if fence.entity !in streams {
        fences := fences + [fence.(callerStamped := true)];
      }
    }

    method Expect(ghost m: Machine, id: string, head: int) returns (error: Option<TxError>)
      requires Valid(m)
      modifies this`expected
      ensures Valid(m)
      ensures error == if used then Some(Consumed) else if head < 0 then Some(NegativeHead(id))
                       else if id in old(expected) && old(expected)[id] != head then Some(ExpectedTwice(id)) else None
      ensures expected == if error.None? then old(expected)[id := head] else old(expected)
    {
      if used {
        return Some(Consumed);
      }
      if head < 0 {
        return Some(NegativeHead(id));
      }
      if id in expected && expected[id] != head {
        return Some(ExpectedTwice(id));
      }
      expected := expected[id := head];
      error := None;
    }

    /** The expected heads that differ from the loaded ones; None when a stream was never read. */
    method StaleVersions() returns (stale: Option<set<StaleVersion>>)
      ensures stale.None? <==> exists id | id in expected :: id !in streams
      ensures stale.Some? ==>
                stale.value == set id | id in expected && id in streams && streams[id].loaded.head != expected[id] ::
                                 StaleVersion(id, expected[id], streams[id].loaded.head)
    {
      var rest, found := expected.Keys, {};
      while rest != {}
        invariant rest <= expected.Keys
        invariant forall id | id in expected && id !in rest :: id in streams
        invariant found == set id | id in expected && id !in rest && id in streams
                                    && streams[id].loaded.head != expected[id] ::
                                    StaleVersion(id, expected[id], streams[id].loaded.head)
        decreases rest
      {
        var id :| id in rest;
        if id !in streams {
          return None;
        }
        if streams[id].loaded.head != expected[id] {
          found := found + {StaleVersion(id, expected[id], streams[id].loaded.head)};
        }
        rest := rest - {id};
      }
      stale := Some(found);
    }

    /** Caller-stamped fences of streams the transaction did not read. */
    method UnreadFences() returns (kept: seq<Fence>)
      ensures kept == Filter(Unread(streams), fences)
    {
      kept := [];
      for i := 0 to |fences|
        invariant kept == Filter(Unread(streams), fences[..i])
      {
        FilterSnoc(Unread(streams), fences[..i], fences[i]);
        assert fences[..i + 1] == fences[..i] + [fences[i]];
        if fences[i].entity !in streams {
          kept := kept + [fences[i]];
        }
      }
      assert fences[..|fences|] == fences;
    }

    method FenceReads(ghost m: Machine) returns (r: SerializedResult)
      requires Valid(m)
      ensures r == FencedReads(order, streams, fences)
    {
      var kept := UnreadFences();
      var engine := FenceAll(order, streams);
      r := SerializedResult([], [], kept + engine, [], None);
    }

    /** Whether a read stream already carries the command's events. */
    predicate Repeats(command: string)
      reads this
    {
      exists i | 0 <= i < |order| :: RepeatedIn(streams, order[i], command)
    }

    method CheckDuplicate(command: string) returns (duplicate: bool)
      ensures duplicate <==> Repeats(command)
    {
      for i := 0 to |order|
        invariant forall j | 0 <= j < i :: !RepeatedIn(streams, order[j], command)
      {
        if RepeatedIn(streams, order[i], command) {
          return true;
        }
      }
      duplicate := false;
    }

    method Prepare(ghost m: Machine, metadata: Metadata, interval: Interval) returns (r: Option<SerializedResult>)
      requires Valid(m)
      ensures r.None? <==> metadata.commandID.Some? && Repeats(metadata.commandID.value)
      ensures r.Some? ==> r.value == Prepared(order, streams, fences, metadata, interval)
    {
      var kept := UnreadFences();
      var duplicate, events, snapshots, engine := StageAll(order, streams, metadata, interval);
      if duplicate {
        return None;
      }
      r := Some(SerializedResult(events, snapshots, kept + engine, [], None));
    }

    /** The outcome to record and whether to write the events; None when an expected stream was never read. */
    method CheckExpected(d: Decision, staleCode: string) returns (checked: Option<(Commit.Outcome, bool)>)
      ensures checked.None? <==> d.status.Accepted? && exists id | id in expected :: id !in streams
      ensures checked.Some? ==>
                checked.value == if d.status.Accepted? && !ExpectationsMet(streams, expected)
                                 then (d.Stale(staleCode), false)
                                 else (d.Outcome(), d.status.Accepted? || d.withEvents)
    {
      if d.status.Accepted? && |expected| > 0 {
        var stale := StaleVersions();
        if stale.None? {
          return None;
        }
        StaleExactly(streams, expected, stale.value);
        if stale.value != {} {
          return Some((d.Stale(staleCode), false));
        }
      }
      checked := Some((d.Outcome(), d.status.Accepted? || d.withEvents));
    }

    /**
      Ends the transaction with a decision. The commit it gives carries the command's outcome; an
      acceptance is given only when every expected head is the loaded one, and everything read is
      written or fenced either way.
     */
    method Finish(ghost m: Machine, d: Decision, metadata: Metadata, interval: Interval, staleCode: string)
      returns (r: Result<SerializedResult, TxError>)
      requires Valid(m)
      modifies this`used
      ensures Valid(m) && used
      ensures r.Ok? <==> !old(used) && !Repeats(d.command)
                         && !(metadata.commandID.Some? && Writing(d) && Repeats(metadata.commandID.value))
                         && (d.status.Accepted? ==> forall id | id in expected :: id in streams)
      ensures r.Ok? ==> r.value == Decided(d, order, streams, fences, expected, metadata, interval, staleCode)
      ensures r.Err? ==> r.error == if old(used) then Consumed
                                    else if !Repeats(d.command) && d.status.Accepted?
                                            && (exists id | id in expected :: id !in streams) then ExpectedUnread
                                    else DuplicateCommand
    {
      if used {
        return Err(Consumed);
      }
      used := true;
      var duplicate := CheckDuplicate(d.command);
      if duplicate {
        return Err(DuplicateCommand);
      }
      var checked := CheckExpected(d, staleCode);
      if checked.None? {
        return Err(ExpectedUnread);
      }
      var (outcome, write) := checked.value;
      if !write {
        var result := FenceReads(m);
        return Ok(result.(outcome := Some(outcome)));
      }
      var prepared := Prepare(m, metadata, interval);
      if prepared.None? {
        return Err(DuplicateCommand);
      }
      r := Ok(prepared.value.(outcome := Some(outcome)));
    }

    /** Ends a transaction on a store without outcomes: its events and fences, and no outcome row. */
    method Commit(
      ghost m: Machine, metadata: Metadata, interval: Interval) returns (r: Result<SerializedResult, TxError>)
      requires Valid(m)
      modifies this`used
      ensures Valid(m) && used
      ensures r.Ok? <==> !old(used) && !(metadata.commandID.Some? && Repeats(metadata.commandID.value))
      ensures r.Ok? ==> r.value == Prepared(order, streams, fences, metadata, interval)
      ensures r.Err? ==> r.error == if old(used) then Consumed else DuplicateCommand
    {
      if used {
        return Err(Consumed);
      }
      used := true;
      var prepared := Prepare(m, metadata, interval);
      r := if prepared.None? then Err(DuplicateCommand) else Ok(prepared.value);
    }

    predicate Writing(d: Decision)
      reads this
    {
      (d.status.Accepted? && ExpectationsMet(streams, expected)) || (!d.status.Accepted? && d.withEvents)
    }
  }

  /** Fact number `i` is the first that cannot be appended, and this is why. */
  predicate StopsAt(m: Machine, s: TxStream, id: string, facts: seq<Fact>, i: nat, error: TxError)
    requires i < |facts|
  {
    && (forall j | 0 <= j < i :: facts[j].entityType == s.entityType)
    && FoldFacts(m, Some(s.state), facts[..i]).Some?
    && if facts[i].entityType != s.entityType then error == WrongType(id)
       else FoldFacts(m, Some(s.state), facts[..i + 1]).None? && error == FactRefused(id)
  }

  predicate RepeatedIn(streams: map<string, TxStream>, id: string, command: string)
  {
    command != "" && id in streams && command in streams[id].loaded.seen
  }

  predicate ExpectationsMet(streams: map<string, TxStream>, expected: map<string, int>)
  {
    forall id | id in expected :: id in streams && streams[id].loaded.head == expected[id]
  }

  lemma {:induction false} StaleExactly(
    streams: map<string, TxStream>, expected: map<string, int>, stale: set<StaleVersion>)
    requires forall id | id in expected :: id in streams
    requires stale == set id | id in expected && id in streams && streams[id].loaded.head != expected[id] ::
                        StaleVersion(id, expected[id], streams[id].loaded.head)
    ensures stale == {} <==> ExpectationsMet(streams, expected)
  {
    if !ExpectationsMet(streams, expected) {
      var id :| id in expected && streams[id].loaded.head != expected[id];
      assert StaleVersion(id, expected[id], streams[id].loaded.head) in stale;
    }
  }

  /** What a command decided: accept, reject, or reject and still write its events. */
  datatype Decision = Decision(
    command: string, digest: string, status: Status, response: string, rejection: Option<Rejection>, withEvents: bool)
  {
    function Outcome(): Commit.Outcome
    {
      Commit.Outcome(command, digest, status, response, rejection, [])
    }

    function Stale(code: string): Commit.Outcome
    {
      var rejection := Rejection(code, "a client-expected stream version is stale");
      Commit.Outcome(command, digest, Rejected, "", Some(rejection), [])
    }
  }

  /** The commit a decision leads to. */
  function Decided(
    d: Decision, order: seq<string>, streams: map<string, TxStream>, fences: seq<Fence>, expected: map<string, int>,
    metadata: Metadata, interval: Interval, staleCode: string): SerializedResult
  {
    if d.status.Accepted? && !ExpectationsMet(streams, expected) then
      FencedReads(order, streams, fences).(outcome := Some(d.Stale(staleCode)))
    else if d.status.Accepted? || d.withEvents then
      Prepared(order, streams, fences, metadata, interval).(outcome := Some(d.Outcome()))
    else
      FencedReads(order, streams, fences).(outcome := Some(d.Outcome()))
  }

  /** The commit a transaction ends with: a decision's, or a plain one that records no outcome. */
  function Ended(
    d: Option<Decision>, order: seq<string>, streams: map<string, TxStream>, fences: seq<Fence>,
    expected: map<string, int>, metadata: Metadata, interval: Interval, staleCode: string): SerializedResult
  {
    match d
    case None => Prepared(order, streams, fences, metadata, interval)
    case Some(d) => Decided(d, order, streams, fences, expected, metadata, interval, staleCode)
  }

  /** Whether the events are written, given whether every expected head was met. */
  predicate Effective(d: Option<Decision>, met: bool)
  {
    d.None? || if d.value.status.Accepted? then met else d.value.withEvents
  }

  /** The outcome row, before its receipt is filled in. */
  function OutcomeFor(d: Option<Decision>, met: bool, staleCode: string): Option<Commit.Outcome>
  {
    match d
    case None => None
    case Some(d) => Some(if d.status.Accepted? && !met then d.Stale(staleCode) else d.Outcome())
  }

  lemma {:induction false} EndedParts(
    d: Option<Decision>, order: seq<string>, streams: map<string, TxStream>, fences: seq<Fence>,
    expected: map<string, int>, metadata: Metadata, interval: Interval, staleCode: string)
    ensures var met := ExpectationsMet(streams, expected);
            var write := Effective(d, met);
            Ended(d, order, streams, fences, expected, metadata, interval, staleCode) ==
            SerializedResult(
              if write then FlatMap(EventsOf(streams, metadata), order) else [],
              if write then FlatMap(SnapshotsOf(streams, interval), order) else [],
              Filter(Unread(streams), fences) + FlatMap(FencesOf(streams, write), order),
              [], OutcomeFor(d, met, staleCode))
  {}

  /**
    The fences of a commit, exactly: the caller's on streams it did not read, and the engine's
    own, which are not caller-stamped, at the loaded head of every read it does not write.
   */
  lemma {:induction false} FencesExactly(
    d: Option<Decision>, order: seq<string>, streams: map<string, TxStream>, fences: seq<Fence>,
    expected: map<string, int>, metadata: Metadata, interval: Interval, staleCode: string, f: Fence)
    requires Lists(order, streams)
    ensures var write := Effective(d, ExpectationsMet(streams, expected));
            f in Ended(d, order, streams, fences, expected, metadata, interval, staleCode).fences <==>
            || (f in fences && f.entity !in streams)
            || (f.entity in streams && !(write && streams[f.entity].pending != [])
                && f == Fence(f.entity, streams[f.entity].entityType, streams[f.entity].loaded.head, false))
  {
    var write := Effective(d, ExpectationsMet(streams, expected));
    EndedParts(d, order, streams, fences, expected, metadata, interval, staleCode);
    FilterMember(Unread(streams), fences, f);
    FlatMapMember(FencesOf(streams, write), order, f);
    if f.entity in order { assert exists i | 0 <= i < |order| :: order[i] == f.entity; }
  }

  /**
    What a decision leads to: events exactly for an acceptance whose expected heads are all the
    loaded ones or a rejection with events, and the outcome it decided, except that an
    acceptance with an unmet expectation is recorded as a rejection.
   */
  lemma {:induction false} DecisionLeadsTo(
    d: Decision, order: seq<string>, streams: map<string, TxStream>, fences: seq<Fence>,
    expected: map<string, int>, metadata: Metadata, interval: Interval, staleCode: string)
    ensures var r := Decided(d, order, streams, fences, expected, metadata, interval, staleCode);
            var met := forall id | id in expected :: id in streams && streams[id].loaded.head == expected[id];
            var write := if d.status.Accepted? then met else d.withEvents;
            && r.outcome.Some? && r.outcome.value.commandID == d.command && r.outcome.value.digest == d.digest
            && (d.status.Accepted? && !met ==>
                  && r.outcome.value.status.Rejected? && r.outcome.value.response == ""
                  && r.outcome.value.rejection.Some? && r.outcome.value.rejection.value.code == staleCode)
            && (!write ==> r.events == [] && r.snapshots == [])
            && (!(d.status.Accepted? && !met) ==>
                  && r.outcome.value.status == d.status && r.outcome.value.response == d.response
                  && r.outcome.value.rejection == d.rejection)
            && (write ==> r == Prepared(order, streams, fences, metadata, interval).(outcome := r.outcome))
  {}

  /** One stream's part of a commit: a fence when nothing was appended, else events and maybe a snapshot. */
  method Stage(id: string, s: TxStream, metadata: Metadata, interval: Interval)
    returns (events: seq<Event>, snapshots: seq<Snapshot>, fences: seq<Fence>)
    ensures forall streams: map<string, TxStream> | id in streams && streams[id] == s ::
              events == EventsOf(streams, metadata)(id) && snapshots == SnapshotsOf(streams, interval)(id)
              && fences == FencesOf(streams, true)(id)
  {
    events, snapshots, fences := [], [], [];
    if s.pending == [] {
      fences := [EngineFence(id, s)];
    } else {
      events := SerializeEvents(id, s.loaded.head, s.pending, metadata);
      if TakesSnapshot(s, id, interval) {
        snapshots := [Captured(id, s)];
      }
    }
  }

  method FenceAll(order: seq<string>, streams: map<string, TxStream>) returns (fences: seq<Fence>)
    requires forall i | 0 <= i < |order| :: order[i] in streams
    ensures fences == FlatMap(FencesOf(streams, false), order)
  {
    fences := [];
    ghost var f := FencesOf(streams, false);
    for i := 0 to |order|
      invariant fences == FlatMap(f, order[..i])
    {
      FlatMapSnoc(f, order[..i], order[i]);
      assert order[..i + 1] == order[..i] + [order[i]];
      fences := fences + [EngineFence(order[i], streams[order[i]])];
    }
    assert order[..|order|] == order;
  }

  predicate AnyRepeats(order: seq<string>, streams: map<string, TxStream>, command: Option<string>)
  {
    command.Some? && exists i | 0 <= i < |order| :: RepeatedIn(streams, order[i], command.value)
  }

  method StageAll(order: seq<string>, streams: map<string, TxStream>, metadata: Metadata, interval: Interval)
    returns (duplicate: bool, events: seq<Event>, snapshots: seq<Snapshot>, fences: seq<Fence>)
    requires forall i | 0 <= i < |order| :: order[i] in streams
    ensures duplicate <==> AnyRepeats(order, streams, metadata.commandID)
    ensures !duplicate ==> events == FlatMap(EventsOf(streams, metadata), order)
                           && snapshots == FlatMap(SnapshotsOf(streams, interval), order)
                           && fences == FlatMap(FencesOf(streams, true), order)
  {
    events, snapshots, fences := [], [], [];
    ghost var ev, sn, fe := EventsOf(streams, metadata), SnapshotsOf(streams, interval), FencesOf(streams, true);
    for i := 0 to |order|
      invariant !AnyRepeats(order[..i], streams, metadata.commandID)
      invariant events == FlatMap(ev, order[..i]) && snapshots == FlatMap(sn, order[..i])
                && fences == FlatMap(fe, order[..i])
    {
      var id := order[i];
      ghost var before := order[..i];
      assert order[..i + 1] == before + [id];
      if metadata.commandID.Some? && RepeatedIn(streams, id, metadata.commandID.value) {
        return true, events, snapshots, fences;
      }
      FlatMapSnoc(ev, before, id);
      FlatMapSnoc(sn, before, id);
      FlatMapSnoc(fe, before, id);
      var e, s, f := Stage(id, streams[id], metadata, interval);
      events, snapshots, fences := events + e, snapshots + s, fences + f;
    }
    assert order[..|order|] == order;
    duplicate := false;
  }

  predicate Accurate(m: Machine, s: TxStream)
  {
    && FoldFacts(m, Some(s.loaded.state), s.pending) == Some(s.state)
    && forall i | 0 <= i < |s.pending| :: s.pending[i].entityType == s.entityType
  }

  lemma {:induction false} FactsRefused(m: Machine, state: Option<string>, facts: seq<Fact>, k: nat)
    requires k <= |facts| && FoldFacts(m, state, facts[..k]).None?
    ensures FoldFacts(m, state, facts).None?
    decreases |facts| - k
  {
    if k == |facts| {
      assert facts[..k] == facts;
    } else {
      assert facts[..k + 1] == facts[..k] + [facts[k]];
      FoldFactsSnoc(m, state, facts[..k], facts[k]);
      FactsRefused(m, state, facts, k + 1);
    }
  }

  lemma {:induction false} FoldFactsAppend(m: Machine, state: Option<string>, a: seq<Fact>, b: seq<Fact>)
    ensures FoldFacts(m, state, a + b) == FoldFacts(m, FoldFacts(m, state, a), b)
  {
    if b == [] {
      assert a + b == a;
    } else {
      FoldFactsAppend(m, state, a, b[..|b| - 1]);
      assert (a + b)[..|a + b| - 1] == a + b[..|b| - 1];
    }
  }

  lemma {:induction false} AccurateAfter(m: Machine, s: TxStream, facts: seq<Fact>, state: string)
    requires Accurate(m, s) && FoldFacts(m, Some(s.state), facts) == Some(state)
    requires forall i | 0 <= i < |facts| :: facts[i].entityType == s.entityType
    ensures Accurate(m, s.(state := state, pending := s.pending + facts))
  {
    FoldFactsAppend(m, Some(s.loaded.state), s.pending, facts);
  }

  // ----- What the commit's conditions guarantee

  lemma {:induction false} StreamAppend(a: seq<Event>, b: seq<Event>, id: string)
    ensures Stream(a + b, id) == Stream(a, id) + Stream(b, id)
  {
    if b == [] {
      assert a + b == a;
    } else {
      var front, e := b[..|b| - 1], b[|b| - 1];
      StreamAppend(a, front, id);
      assert a + b == (a + front) + [e] && b == front + [e];
      StreamSnoc(a + front, e, id);
      StreamSnoc(front, e, id);
    }
  }

  lemma {:induction false} StreamOfOne(events: seq<Event>, owner: string, id: string)
    requires forall i | 0 <= i < |events| :: events[i].entity == owner
    ensures Stream(events, id) == if owner == id then events else []
  {
    if events != [] {
      StreamOfOne(events[1..], owner, id);
      assert events == [events[0]] + events[1..];
    }
  }

  /** Each stream's part of the commit is what was serialized for it. */
  lemma {:induction false} StreamOfFlat(
    streams: map<string, TxStream>, metadata: Metadata, order: seq<string>, id: string)
    requires NoRepeats(order)
    ensures var f := EventsOf(streams, metadata);
            Stream(FlatMap(f, order), id) == if id in order then f(id) else []
  {
    if order != [] {
      var f, front, x := EventsOf(streams, metadata), order[..|order| - 1], order[|order| - 1];
      StreamOfFlat(streams, metadata, front, id);
      StreamAppend(FlatMap(f, front), f(x), id);
      StreamOfOne(f(x), x, id);
    }
  }

  lemma {:induction false} EngineFenceIsThere(
    order: seq<string>, streams: map<string, TxStream>, write: bool, id: string)
    requires id in order && id in streams && !(write && streams[id].pending != [])
    ensures EngineFence(id, streams[id]) in FlatMap(FencesOf(streams, write), order)
  {
    FlatMapMember(FencesOf(streams, write), order, EngineFence(id, streams[id]));
    assert EngineFence(id, streams[id]) in FencesOf(streams, write)(id);
  }

  /** A commit's events are those of the transaction's written streams, or none. */
  predicate Guards(r: SerializedResult, id: string, s: TxStream, metadata: Metadata)
  {
    || (Stream(r.events, id) == [] && EngineFence(id, s) in r.fences)
    || (s.pending != [] && Stream(r.events, id) == Serialized(id, s.loaded.head, s.pending, metadata))
  }

  /** Everything read is written from its loaded head on, or fenced at it. */
  lemma {:induction false} EveryReadIsGuarded(
    d: Option<Decision>, order: seq<string>, streams: map<string, TxStream>, fences: seq<Fence>,
    expected: map<string, int>, metadata: Metadata, interval: Interval, staleCode: string, id: string)
    requires Lists(order, streams) && id in streams
    ensures Guards(Ended(d, order, streams, fences, expected, metadata, interval, staleCode), id, streams[id], metadata)
  {
    var write := Effective(d, ExpectationsMet(streams, expected));
    EndedParts(d, order, streams, fences, expected, metadata, interval, staleCode);
    StreamOfFlat(streams, metadata, order, id);
    if !(write && streams[id].pending != []) { EngineFenceIsThere(order, streams, write, id); }
  }

  lemma {:induction false} GuardHolds(rows: Rows, r: SerializedResult, id: string, s: TxStream, metadata: Metadata)
    requires WellFormed(r) && StreamsUnmoved(rows, Normalized(r)) && Guards(r, id, s, metadata)
    ensures Head(rows, id) == s.loaded.head
  {
    var n, f := Normalized(r), EngineFence(id, s);
    SortedStreams(r.events, id);
    assert Continues(rows, id, Stream(n.events, id));
    if Stream(r.events, id) == [] {
      FencesGuardUnwritten(r);
      assert f in n.fences && FenceHolds(rows, f);
    }
  }

  /**
    When a transaction's commit applies, with or without an outcome, every stream it read, written
    or not, is at exactly the head it was loaded at. This crosses preparing the commit, rejecting
    without events, and normalization's dropping of fences on written streams.
   */
  lemma {:induction false} ReadsAreCurrentAtCommit(
    rows: Rows, d: Option<Decision>, order: seq<string>, streams: map<string, TxStream>, fences: seq<Fence>,
    expected: map<string, int>, metadata: Metadata, interval: Interval, staleCode: string)
    requires Lists(order, streams)
    requires var r := Ended(d, order, streams, fences, expected, metadata, interval, staleCode);
             WellFormed(r) && StreamsUnmoved(rows, Normalized(r))
    ensures forall id | id in streams :: Head(rows, id) == streams[id].loaded.head
  {
    var r := Ended(d, order, streams, fences, expected, metadata, interval, staleCode);
    forall id | id in streams ensures Head(rows, id) == streams[id].loaded.head {
      EveryReadIsGuarded(d, order, streams, fences, expected, metadata, interval, staleCode, id);
      GuardHolds(rows, r, id, streams[id], metadata);
    }
  }
}
