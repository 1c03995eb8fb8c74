/**
  Exactly-once commands. A command's outcome row is written by the commit that carries it, on
  the condition that no row exists; every attempt reads the row first, and a commit whose
  result is unknown is settled by reading it.

  The store here is an arbitrary environment. Between any two interactions of a caller, any
  commits of other writers land, with the same command ID or others: concurrent callers,
  retries of clients, and this caller's own earlier commits landing late. Every request may be
  refused, throttled, lost on its way, or applied with its reply lost. A script decides, and
  everything is proved for every script.
 */
module Outcomes {
  import opened Basics
  import opened Commit
  import opened Retry

  /** How an interaction goes. */
  datatype Fate =
    | Delivered
    | Failing(error: Error)          // a definite refusal, or a read that fails
    | RequestLost                    // never arrives, as far as this interaction goes
    | ReplyLost                      // takes effect if it can, and the answer is lost

  datatype Moment = Moment(others: seq<Outcome>, fate: Fate)

  datatype ReadReply = Row(stored: Option<Outcome>) | ReadFailed(error: Error)

  datatype CommitReply = Committed | CommitFailed(error: Error)

  const IsLost := (k: Kind) => k.OutcomeConflict?
  const IsAmbiguous := (k: Kind) => k.Ambiguous?
  const IsOperation := (k: Kind) => k.ProjectorOperation?
  const IsFinal := (k: Kind) => k.KeyReuse? || k.Corrupt?

  // ----- The log of applied outcomes

  /** No two applied commits carry one command ID. */
  predicate AtMostOnce(applied: seq<Outcome>)
  {
    forall i, j | 0 <= i < j < |applied| :: applied[i].commandID != applied[j].commandID
  }

  /** The outcome rows are exactly the applied outcomes. */
  ghost predicate RowsOf(applied: seq<Outcome>, outcomes: map<string, Outcome>)
  {
    && (forall i | 0 <= i < |applied| ::
          applied[i].commandID in outcomes && outcomes[applied[i].commandID] == applied[i])
    && (forall id | id in outcomes :: outcomes[id].commandID == id && outcomes[id] in applied)
  }

  /** A row once written is the row ever after. */
  lemma {:induction false} RowsAreForever(
    before: seq<Outcome>, rows: map<string, Outcome>, after: seq<Outcome>, later: map<string, Outcome>, id: string)
    requires RowsOf(before, rows) && RowsOf(after, later) && before <= after && id in rows
    ensures id in later && later[id] == rows[id]
  {
    var i :| 0 <= i < |before| && before[i] == rows[id];
    assert after[i] == before[i];
  }

  // ----- What a caller did

  /** One act of a caller towards the store, or the end of an attempt. */
  datatype Act =
    | Polled(id: string, read: ReadReply)                // read the outcome row
    | Sent(outcome: Outcome, result: CommitReply)        // sent a commit that carries the outcome
    | Settled(answer: Answer)                            // knows how that went
    | Slept(duration: int)                               // between two polls of a recovery
    | Waited(duration: int)                              // between two attempts
    | Attempted(answer: Answer)                          // an attempt ended

  predicate IsRead(a: Act) { a.Polled? || a.Slept? }

  /** Nothing but polls and the sleeps between them. */
  predicate OnlyReads(acts: seq<Act>)
  {
    forall i | 0 <= i < |acts| :: IsRead(acts[i])
  }

  function TotalSlept(acts: seq<Act>): int
  {
    if acts == [] then 0
    else
      var last := acts[|acts| - 1];
      TotalSlept(acts[..|acts| - 1]) + if last.Slept? then last.duration else 0
  }

  lemma {:induction false} InARow(trace: seq<Act>, a: seq<Act>, b: seq<Act>)
    ensures trace + a + b == trace + (a + b)
  {}

  lemma {:induction false} NothingMore(trace: seq<Act>)
    ensures trace + [] == trace
  {}

  // ----- The environment

  class Store {
    var outcomes: map<string, Outcome>
    var script: seq<Moment>
    ghost var applied: seq<Outcome>
    ghost var trace: seq<Act>

    ghost predicate Valid()
      reads this
    {
      && AtMostOnce(applied) && RowsOf(applied, outcomes)
      && forall i | 0 <= i < |script| :: Truthful(script[i].fate)
    }

    constructor (script: seq<Moment>)
      requires forall i | 0 <= i < |script| :: Truthful(script[i].fate)
      ensures Valid() && applied == [] && outcomes == map[] && trace == []
    {
      this.script, outcomes, applied, trace := script, map[], [], [];
    }

    /** A commit arrives: it applies exactly when its command has no row yet. */
    method Land(o: Outcome) returns (free: bool)
      requires Valid()
      modifies this`outcomes, this`applied
      ensures Valid() && free == (o.commandID !in old(outcomes))
      ensures applied == old(applied) + (if free then [o] else [])
      ensures o.commandID in outcomes && (free ==> outcomes[o.commandID] == o)
    {
      free := o.commandID !in outcomes;
      if free {
        outcomes, applied := outcomes[o.commandID := o], applied + [o];
      }
    }

    /** Time passes: other writers' commits land, and this interaction's fate is drawn. */
    method Elapse() returns (fate: Fate)
      requires Valid()
      modifies this`outcomes, this`script, this`applied
      ensures Valid() && old(applied) <= applied && Truthful(fate)
      ensures Quiet(old(script)) ==> Quiet(script) && fate.Delivered?
    {
      if script == [] {
        return Delivered;
      }
      var moment := script[0];
      script := script[1..];
      for i := 0 to |moment.others|
        invariant Valid() && old(applied) <= applied && Truthful(moment.fate)
        invariant Quiet(old(script)) ==> Quiet(script)
      {
        var _ := Land(moment.others[i]);
      }
      fate := moment.fate;
    }

    /** Nothing is asked of the store for a while; others go on. */
    method Pass(ghost act: Act)
      requires Valid()
      modifies this
      ensures Valid() && old(applied) <= applied && trace == old(trace) + [act]
      ensures Quiet(old(script)) ==> Quiet(script)
    {
      var _ := Elapse();
      trace := trace + [act];
    }

    method GetOutcome(id: string) returns (reply: ReadReply)
      requires Valid()
      modifies this
      ensures Valid() && old(applied) <= applied && trace == old(trace) + [Polled(id, reply)]
      ensures reply.Row? ==> reply.stored == if id in outcomes then Some(outcomes[id]) else None
      ensures reply.ReadFailed? ==> !Holds(reply.error, IsLost)
      ensures Quiet(old(script)) ==> Quiet(script) && reply.Row?
    {
      var fate := Elapse();
      Single(Plain);
      match fate {
        case Delivered => reply := Row(if id in outcomes then Some(outcomes[id]) else None);
        case Failing(error) => reply := ReadFailed(error);
        case RequestLost => reply := ReadFailed(Error(Plain, []));
        case ReplyLost => reply := ReadFailed(Error(Plain, []));
      }
      trace := trace + [Polled(id, reply)];
    }

    /** Sends a commit that carries an outcome. A success, and a lost race, are told truthfully. */
    method Commit(o: Outcome) returns (reply: CommitReply)
      requires Valid()
      modifies this
      ensures Valid() && old(applied) <= applied && trace == old(trace) + [Sent(o, reply)]
      ensures reply.Committed? ==>
              o.commandID in outcomes && outcomes[o.commandID] == o && o in applied[|old(applied)|..]
      ensures reply.CommitFailed? && Holds(reply.error, IsLost) ==> o.commandID in outcomes
      ensures Quiet(old(script)) ==> Quiet(script) && (reply.Committed? || Holds(reply.error, IsLost))
    {
      var fate := Elapse();
      ghost var before := applied;
      match fate {
        case Delivered =>
          var free := Land(o);
          if free {
            assert applied[|before|] == o && applied[|old(applied)|..][|before| - |old(applied)|] == o;
            reply := Committed;
          } else {
            Single(OutcomeConflict);
            assert Nodes(Error(OutcomeConflict, []))[0].kind == OutcomeConflict;
            reply := CommitFailed(Error(OutcomeConflict, []));
          }
        case Failing(error) => reply := CommitFailed(error);
        case RequestLost => Single(Ambiguous); reply := CommitFailed(Error(Ambiguous, []));
        case ReplyLost =>
          var _ := Land(o);
          Single(Ambiguous);
          reply := CommitFailed(Error(Ambiguous, []));
      }
      trace := trace + [Sent(o, reply)];
    }
  }

  /** Every message arrives and is answered; other writers may still be at work. */
  predicate Quiet(script: seq<Moment>)
  {
    forall i | 0 <= i < |script| :: script[i].fate.Delivered?
  }

  /** A backend reports a lost outcome row only from Commit's own condition. */
  predicate Truthful(fate: Fate)
  {
    fate.Failing? ==> !Holds(fate.error, IsLost)
  }

  lemma {:induction false} Single(kind: Kind)
    ensures Nodes(Error(kind, [])) == [Error(kind, [])]
  {}

  // ----- The caller

  datatype Command = Command(id: string, digest: string)

  datatype Answer =
    | Answered(outcome: Outcome, replayed: bool)
    | Reused(prior: Outcome)               // the ID belongs to a different command
    | Failed(error: Error)

  /** Answers a command whose row exists. */
  function Resolve(cmd: Command, stored: Outcome): Answer
  {
    if stored.digest != cmd.digest then Reused(stored) else Answered(stored, true)
  }

  /**
    What any answer means: an outcome is the one row of the command ID, recorded under this
    command's digest, and a first execution's is one this call's own commit wrote; a reuse is
    the row of another command.
   */
  ghost predicate Sound(
    cmd: Command, answer: Answer, before: seq<Outcome>, applied: seq<Outcome>, outcomes: map<string, Outcome>)
  {
    && before <= applied
    && match answer
       case Answered(o, replayed) =>
         && cmd.id in outcomes && outcomes[cmd.id] == o && o.digest == cmd.digest
         && (!replayed ==> o in applied[|before|..])
       case Reused(prior) => cmd.id in outcomes && outcomes[cmd.id] == prior && prior.digest != cmd.digest
       case Failed(_) => true
  }

  lemma {:induction false} SoundEarlier(
    cmd: Command, answer: Answer, start: seq<Outcome>, before: seq<Outcome>, applied: seq<Outcome>,
    outcomes: map<string, Outcome>)
    requires start <= before && Sound(cmd, answer, before, applied, outcomes)
    ensures Sound(cmd, answer, start, applied, outcomes)
  {}

  /** What a read of the command's row says: its answer, or None when there is no row. */
  function ReadAs(cmd: Command, reply: ReadReply): Option<Answer>
  {
    match reply
    case ReadFailed(error) => Some(Failed(error))
    case Row(stored) => if stored.None? then None else Some(Resolve(cmd, stored.value))
  }

  method Reread(store: Store, cmd: Command) returns (answer: Option<Answer>, ghost reply: ReadReply)
    requires store.Valid()
    modifies store
    ensures store.Valid() && old(store.applied) <= store.applied
    ensures store.trace == old(store.trace) + [Polled(cmd.id, reply)] && answer == ReadAs(cmd, reply)
    ensures answer.Some? ==> Sound(cmd, answer.value, old(store.applied), store.applied, store.outcomes)
    ensures answer.Some? && answer.value.Answered? ==> answer.value.replayed
    ensures answer.None? ==> cmd.id !in store.outcomes
    ensures answer.Some? && answer.value.Failed? ==> !Holds(answer.value.error, IsLost)
    ensures Quiet(old(store.script)) ==> Quiet(store.script) && (answer.Some? ==> !answer.value.Failed?)
  {
    var read := store.GetOutcome(cmd.id);
    reply := read;
    match read {
      case ReadFailed(error) => answer := Some(Failed(error));
      case Row(stored) => answer := if stored.None? then None else Some(Resolve(cmd, stored.value));
    }
  }

  // ----- Recovery of an ambiguous commit

  const FIRST_DELAY := 50 * MILLISECOND
  const LAST_DELAY := 1000 * MILLISECOND

  function Retrying(cause: Error): Error
  {
    Error(Classified(Transient), [Error(Ambiguous, [cause])])
  }

  /** The failure that made a commit's result unknown. */
  function CauseOf(error: Error): Error
  {
    var ambiguous := First(error, IsAmbiguous);
    if ambiguous.Some? && |ambiguous.value.causes| == 1 then ambiguous.value.causes[0] else error
  }

  /** What the checks on a failed commit look for. */
  lemma {:induction false} ChecksExactly(e: Error)
    ensures Holds(e, IsLost) <==> exists i | 0 <= i < |Nodes(e)| :: Nodes(e)[i].kind.OutcomeConflict?
    ensures Holds(e, IsAmbiguous) <==> exists i | 0 <= i < |Nodes(e)| :: Nodes(e)[i].kind.Ambiguous?
    ensures Holds(e, IsOperation) <==> exists i | 0 <= i < |Nodes(e)| :: Nodes(e)[i].kind.ProjectorOperation?
    ensures Holds(e, IsFinal) <==>
            exists i | 0 <= i < |Nodes(e)| :: Nodes(e)[i].kind.KeyReuse? || Nodes(e)[i].kind.Corrupt?
  {}

  /** The cause is what the first ambiguous error wraps, when it wraps one error. */
  lemma {:induction false} CauseExactly(e: Error, i: nat)
    requires i < |Nodes(e)| && Nodes(e)[i].kind.Ambiguous? && forall j | 0 <= j < i :: !Nodes(e)[j].kind.Ambiguous?
    ensures |Nodes(e)[i].causes| == 1 ==> CauseOf(e) == Nodes(e)[i].causes[0]
    ensures |Nodes(e)[i].causes| != 1 ==> CauseOf(e) == e
  {
    FirstInFinds(Nodes(e), IsAmbiguous);
  }

  /** How long a recovery has slept after `n` sleeps: growing delays, cut off where the window ends. */
  function SleptFor(window: int, n: nat): int
  {
    if n == 0 then 0
    else
      var before := SleptFor(window, n - 1);
      before + Min(Backoff(FIRST_DELAY, LAST_DELAY, n - 1), window - before)
  }

  /** `n` polls that find no row, each with the sleep after it. */
  function Fruitless(id: string, window: int, n: nat): seq<Act>
  {
    if n == 0 then []
    else
      Fruitless(id, window, n - 1)
      + [Polled(id, Row(None))] + [Slept(SleptFor(window, n) - SleptFor(window, n - 1))]
  }

  /** `n` polls with a sleep before each but the first; all but the last found no row. */
  function Polling(id: string, window: int, n: nat, last: ReadReply): seq<Act>
    requires n >= 1
  {
    Fruitless(id, window, n - 1) + [Polled(id, last)]
  }

  /** The sum of the first `n` delays. */
  function Delays(n: nat): int
  {
    if n == 0 then 0 else Delays(n - 1) + Backoff(FIRST_DELAY, LAST_DELAY, n - 1)
  }

  /** The sleeps add up to the delays, and never to more than the window. */
  lemma {:induction false} SleepsFillWindow(window: int, n: nat)
    requires window >= 0
    ensures SleptFor(window, n) == Min(Delays(n), window) && Delays(n) >= 0
  {
    if n > 0 { SleepsFillWindow(window, n - 1); }
  }

  /** The delays in nanoseconds: 50 milliseconds, doubled up to 800, and then a second each. */
  lemma {:induction false} DelaysExactly(n: nat)
    ensures n <= 5 ==> Delays(n) == 50_000_000 * (Pow2(n) - 1)
    ensures n >= 5 ==> Delays(n) == 1_550_000_000 + (n - 5) * 1_000_000_000
  {
    assert Pow2(1) == 2 && Pow2(2) == 4 && Pow2(3) == 8 && Pow2(4) == 16 && Pow2(5) == 32;
    if n > 0 {
      DelaysExactly(n - 1);
      if n > 5 { BackoffCapped(50_000_000, 1_000_000_000, 5, n - 1); }
    }
  }

  lemma {:induction false} FruitlessSleeps(id: string, window: int, n: nat)
    ensures TotalSlept(Fruitless(id, window, n)) == SleptFor(window, n)
    ensures OnlyReads(Fruitless(id, window, n))
  {
    if n > 0 {
      FruitlessSleeps(id, window, n - 1);
      var front := Fruitless(id, window, n - 1);
      var all := Fruitless(id, window, n);
      assert all[..|all| - 1] == front + [Polled(id, Row(None))];
      assert (front + [Polled(id, Row(None))])[..|front|] == front;
    }
  }

  lemma {:induction false} PollingSleeps(id: string, window: int, n: nat, last: ReadReply)
    requires n >= 1
    ensures TotalSlept(Polling(id, window, n, last)) == SleptFor(window, n - 1)
    ensures OnlyReads(Polling(id, window, n, last))
  {
    FruitlessSleeps(id, window, n - 1);
    var front := Fruitless(id, window, n - 1);
    assert (front + [Polled(id, last)])[..|front|] == front;
  }

  /** A recovery that goes on after poll number `n`: the window is not over and no deadline cut in. */
  predicate GoesOn(window: int, expires: nat -> bool, n: nat)
    requires n >= 1
  {
    SleptFor(window, n - 1) < window && !expires(n)
  }

  /** What one poll of a recovery says: None when there is no row. A failed read leaves the result unknown. */
  function Recovered(cmd: Command, cause: Error, reply: ReadReply): Option<Answer>
  {
    var answer := ReadAs(cmd, reply);
    if reply.ReadFailed? && !Holds(reply.error, IsFinal) then
      Some(Failed(Retrying(Error(Plain, [cause, reply.error]))))
    else answer
  }

  /** What a failure of a recovery promises its caller. */
  predicate Recoverable(error: Error)
  {
    && (Holds(error, IsFinal) || Holds(error, IsAmbiguous))
    && (!Holds(error, IsLost) || Classify(error).Transient?)
  }

  method PollOnce(store: Store, cmd: Command, cause: Error) returns (answer: Option<Answer>, ghost reply: ReadReply)
    requires store.Valid()
    modifies store
    ensures store.Valid() && old(store.applied) <= store.applied
    ensures store.trace == old(store.trace) + [Polled(cmd.id, reply)] && answer == Recovered(cmd, cause, reply)
    ensures answer.None? ==> cmd.id !in store.outcomes && reply == Row(None)
    ensures answer.Some? ==> Sound(cmd, answer.value, old(store.applied), store.applied, store.outcomes)
    ensures answer.Some? && answer.value.Answered? ==> answer.value.replayed
    ensures answer.Some? && answer.value.Failed? ==> Recoverable(answer.value.error)
    ensures Quiet(old(store.script)) ==> Quiet(store.script) && (answer.Some? ==> !answer.value.Failed?)
    ensures Quiet(old(store.script)) && cmd.id in old(store.outcomes) ==>
              answer == Some(Resolve(cmd, old(store.outcomes)[cmd.id]))
  {
    answer, reply := Reread(store, cmd);
    if cmd.id in old(store.outcomes) {
      RowsAreForever(old(store.applied), old(store.outcomes), store.applied, store.outcomes, cmd.id);
    }
    if answer.Some? && answer.value.Failed? && !Holds(answer.value.error, IsFinal) {
      AmbiguityShows(Error(Plain, [cause, answer.value.error]));
      answer := Some(Failed(Retrying(Error(Plain, [cause, answer.value.error]))));
    }
  }

  /** After `n - 1` fruitless polls and their sleeps, none of which ended the recovery. */
  predicate PollsMade(window: int, expires: nat -> bool, n: nat, waited: int, delay: int)
  {
    && n >= 1 && waited == SleptFor(window, n - 1) && delay == Backoff(FIRST_DELAY, LAST_DELAY, n - 1)
    && 0 <= waited && (waited <= window || waited == 0) && delay > 0
    && forall k | 1 <= k < n :: GoesOn(window, expires, k)
  }

  lemma {:induction false} OneMorePoll(id: string, window: int, expires: nat -> bool, n: nat, waited: int, delay: int)
    requires PollsMade(window, expires, n, waited, delay) && waited < window && !expires(n)
    ensures var step := Min(delay, window - waited);
            && PollsMade(window, expires, n + 1, waited + step, Min(delay * 2, LAST_DELAY))
            && Fruitless(id, window, n) == Fruitless(id, window, n - 1) + [Polled(id, Row(None))] + [Slept(step)]
  {}

  /** The polls so far slept at most the window in all. */
  ghost predicate SleptWithin(id: string, window: int, n: nat, last: ReadReply)
    requires n >= 1
  {
    var slept := TotalSlept(Polling(id, window, n, last));
    0 <= slept && (slept <= window || slept == 0)
  }

  lemma {:induction false} PollsDone(
    id: string, window: int, expires: nat -> bool, n: nat, waited: int, delay: int, last: ReadReply)
    requires PollsMade(window, expires, n, waited, delay)
    ensures SleptWithin(id, window, n, last)
  {
    PollingSleeps(id, window, n, last);
  }

  /**
    Polls the row with growing delays until it appears or the window ends; `expires` says after
    which poll the surrounding deadline cuts in. It does `polls` polls and the sleeps between
    them and nothing else, sleeps at most the window in all, goes on exactly while it may and
    finds no row, and answers what the last poll says; an absent row leaves the result unknown.
   */
  method Recover(
    store: Store, cmd: Command, cause: Error, window: int, expires: nat -> bool)
    returns (answer: Answer, polls: nat, ghost last: ReadReply)
    requires store.Valid()
    modifies store
    ensures store.Valid() && Sound(cmd, answer, old(store.applied), store.applied, store.outcomes)
    ensures polls >= 1 && store.trace == old(store.trace) + Polling(cmd.id, window, polls, last)
    ensures forall n | 1 <= n < polls :: GoesOn(window, expires, n)
    ensures SleptWithin(cmd.id, window, polls, last)
    ensures match Recovered(cmd, cause, last)
            case Some(found) => answer == found
            case None =>
              answer == Failed(Retrying(cause)) && !GoesOn(window, expires, polls) && cmd.id !in store.outcomes
    ensures answer.Answered? ==> answer.replayed
    ensures answer.Failed? ==> Recoverable(answer.error)
    ensures Quiet(old(store.script)) ==> Quiet(store.script) && (answer.Failed? ==> last == Row(None))
    ensures Quiet(old(store.script)) && cmd.id in old(store.outcomes) ==>
            answer == Resolve(cmd, old(store.outcomes)[cmd.id])
  {
    var delay, waited := FIRST_DELAY, 0;
    ghost var made: seq<Act> := [];
    polls := 1;
    while true
      invariant store.Valid() && old(store.applied) <= store.applied && store.trace == old(store.trace) + made
      invariant PollsMade(window, expires, polls, waited, delay) && made == Fruitless(cmd.id, window, polls - 1)
      invariant Quiet(old(store.script)) ==> Quiet(store.script)
      invariant polls == 1 ==> store.outcomes == old(store.outcomes)
      invariant Quiet(old(store.script)) && cmd.id in old(store.outcomes) ==> polls == 1
      decreases window - waited
    {
      ghost var before := store.applied;
      var row;
      row, last := PollOnce(store, cmd, cause);
      InARow(old(store.trace), made, [Polled(cmd.id, last)]);
      if row.Some? {
        PollsDone(cmd.id, window, expires, polls, waited, delay, last);
        SoundEarlier(cmd, row.value, old(store.applied), before, store.applied, store.outcomes);
        return row.value, polls, last;
      }
      if waited >= window || expires(polls) {
        PollsDone(cmd.id, window, expires, polls, waited, delay, last);
        AmbiguityShows(cause);
        return Failed(Retrying(cause)), polls, last;
      }
      var step := Min(delay, window - waited);
      OneMorePoll(cmd.id, window, expires, polls, waited, delay);
      store.Pass(Slept(step));
      InARow(old(store.trace), made + [Polled(cmd.id, last)], [Slept(step)]);
      made := made + [Polled(cmd.id, last)] + [Slept(step)];
      waited, delay, polls := waited + step, Min(delay * 2, LAST_DELAY), polls + 1;
    }
  }

  lemma {:induction false} AmbiguityShows(cause: Error)
    ensures Holds(Retrying(cause), IsAmbiguous) && Classify(Retrying(cause)).Transient?
  {
    var inner := Error(Ambiguous, [cause]);
    assert Nodes(Retrying(cause)) == [Retrying(cause)] + NodesOf([inner]);
    assert NodesOf([inner]) == Nodes(inner) + NodesOf([inner][1..]);
    assert Nodes(Retrying(cause))[1] == inner;
    TransientShows(inner);
  }

  /** An error classified transient by its outermost mark is transient. */
  lemma {:induction false} TransientShows(inner: Error)
    ensures Classify(Error(Classified(Transient), [inner])).Transient?
  {
    var e := Error(Classified(Transient), [inner]);
    assert Nodes(e)[0] == e && First(e, IsClassified) == Some(e);
    if Holds(e, IsIndeterminate) {
      assert Nodes(e) == [e] + NodesOf([inner]);
      assert NodesOf([inner]) == Nodes(inner) + NodesOf([inner][1..]) && NodesOf([inner][1..]) == [];
      var i :| 0 <= i < |Nodes(e)| && IsIndeterminate(Nodes(e)[i].kind);
      assert Nodes(e)[i] == Nodes(inner)[i - 1];
      assert Holds(e.causes[0], IsIndeterminate);
    }
  }

  // ----- Settling a failed commit

  /** A failed commit that the command's row may answer. */
  predicate Settleable(error: Error)
  {
    || Holds(error, IsLost) || Holds(error, IsAmbiguous)
    || (!Holds(error, IsOperation) && (Holds(error, IsConflict) || Classify(error).Transient?))
  }

  /** The commit lost its race: the row is the answer; a read that failed for now is worth another attempt. */
  predicate AnswersLost(cmd: Command, reply: ReadReply, answer: Answer)
  {
    match ReadAs(cmd, reply)
    case None => false
    case Some(read) =>
      if read.Failed? && !Holds(read.error, IsFinal) && !Classify(read.error).Permanent? then
        answer == Failed(Error(Classified(Transient), [read.error]))
      else answer == read
  }

  /** The commit was refused: the row is the answer if there is one, else the refusal itself. */
  predicate AnswersRefused(cmd: Command, error: Error, reply: ReadReply, answer: Answer)
  {
    match ReadAs(cmd, reply)
    case None => answer == Failed(error)
    case Some(read) =>
      if read.Failed? && !Holds(read.error, IsFinal) then answer == Failed(error) else answer == read
  }

  /** The commit's result is unknown: the answer is what polling for the row found. */
  ghost predicate AnswersUnknown(
    cmd: Command, cause: Error, window: int, expires: nat -> bool, acts: seq<Act>, answer: Answer)
  {
    exists polls: nat, last: ReadReply | polls >= 1 ::
      && acts == Polling(cmd.id, window, polls, last) && (forall n | 1 <= n < polls :: GoesOn(window, expires, n))
      && match Recovered(cmd, cause, last)
         case Some(found) => answer == found
         case None => answer == Failed(Retrying(cause)) && !GoesOn(window, expires, polls)
  }

  /** What settling a failed commit does and answers, by what its error says. */
  ghost predicate Settles(
    cmd: Command, error: Error, window: int, expires: nat -> bool, acts: seq<Act>, answer: Answer)
  {
    if Holds(error, IsLost) then
      |acts| == 1 && acts[0].Polled? && acts[0].id == cmd.id && AnswersLost(cmd, acts[0].read, answer)
    else if Holds(error, IsAmbiguous) then AnswersUnknown(cmd, CauseOf(error), window, expires, acts, answer)
    else if Settleable(error) then
      |acts| == 1 && acts[0].Polled? && acts[0].id == cmd.id && AnswersRefused(cmd, error, acts[0].read, answer)
    else acts == [] && answer == Failed(error)
  }

  /**
    Settles a failed commit. When the row exists and can be read, it is the answer to every
    failure but a definite one that says nothing about the row.
   */
  method Settle(store: Store, cmd: Command, error: Error, window: int, expires: nat -> bool)
    returns (answer: Answer, ghost acts: seq<Act>)
    requires store.Valid() && (Holds(error, IsLost) ==> cmd.id in store.outcomes)
    modifies store
    ensures store.Valid() && Sound(cmd, answer, old(store.applied), store.applied, store.outcomes)
    ensures store.trace == old(store.trace) + acts && OnlyReads(acts)
    ensures Settles(cmd, error, window, expires, acts, answer)
    ensures !Holds(error, IsLost) && !Holds(error, IsAmbiguous) && answer.Failed? ==>
              answer.error == error || Holds(answer.error, IsFinal)
    ensures answer.Answered? ==> answer.replayed
    ensures answer.Failed? ==> !Holds(answer.error, IsLost) || Classify(answer.error).Transient?
    ensures Quiet(old(store.script)) ==> Quiet(store.script)
    ensures Quiet(old(store.script)) && cmd.id in old(store.outcomes) && Settleable(error) ==>
              answer == Resolve(cmd, old(store.outcomes)[cmd.id])
  {
    acts := [];
    var row;
    ghost var reply;
    if Holds(error, IsLost) {
      row, reply := Reread(store, cmd);
      acts := [Polled(cmd.id, reply)];
      RowsAreForever(old(store.applied), old(store.outcomes), store.applied, store.outcomes, cmd.id);
      assert row.Some?;
      answer := row.value;
      if answer.Failed? && !Holds(answer.error, IsFinal) && !Classify(answer.error).Permanent? {
        TransientShows(answer.error);
        answer := Failed(Error(Classified(Transient), [answer.error]));
      }
      return;
    }
    if Holds(error, IsAmbiguous) {
      var polls;
      answer, polls, reply := Recover(store, cmd, CauseOf(error), window, expires);
      PollingSleeps(cmd.id, window, polls, reply);
      acts := Polling(cmd.id, window, polls, reply);
      return;
    }
    if !Holds(error, IsOperation) && (Holds(error, IsConflict) || Classify(error).Transient?) {
      row, reply := Reread(store, cmd);
      acts := [Polled(cmd.id, reply)];
      if cmd.id in old(store.outcomes) {
        RowsAreForever(old(store.applied), old(store.outcomes), store.applied, store.outcomes, cmd.id);
      }
      if row.Some? && (!row.value.Failed? || Holds(row.value.error, IsFinal)) {
        return row.value, acts;
      }
    }
    answer := Failed(error);
  }

  // ----- One commit, one attempt

  /**
    What the engine is set up with: the check every outcome passes before it is sent, the
    rejections it records for a failed caller-stamped fence and for a last attempt that
    conflicted, and how long it polls for an unknown result.
   */
  datatype Engine = Engine(
    accepts: Outcome -> bool, callerFence: Rejection, retriesExhausted: Rejection, window: int)

  function EngineOf(code: string, window: int): Engine
  {
    Engine(
      OutcomeOK,
      Rejection(code, "a caller-stamped fence went stale"),
      Rejection(code, "the state this command was decided on kept changing; retries were exhausted"),
      window)
  }

  /** The commit is sent, if it is well formed, then at most the row is read, and that settles it. */
  ghost predicate SendsOnce(
    cmd: Command, engine: Engine, o: Outcome, expires: nat -> bool, acts: seq<Act>, answer: Answer)
  {
    && acts != [] && acts[|acts| - 1] == Settled(answer)
    && var body := acts[..|acts| - 1];
       if engine.accepts(o) then SentFirst(cmd, engine.window, o, expires, body, answer)
       else body == [] && answer == Failed(Error(Plain, []))
  }

  /** Sent and confirmed, which answers a first execution, or sent and settled by at most reading. */
  ghost predicate SentFirst(
    cmd: Command, window: int, o: Outcome, expires: nat -> bool, acts: seq<Act>, answer: Answer)
  {
    && acts != [] && acts[0].Sent? && acts[0].outcome == o
    && match acts[0].result
       case Committed => acts == [Sent(o, Committed)] && answer == Answered(o, false)
       case CommitFailed(error) =>
         && Settles(cmd, error, window, expires, acts[1..], answer) && OnlyReads(acts[1..])
         && (answer.Answered? ==> answer.replayed)
  }

  /** A refusal no row answers is handed on as it is, so that its own kind decides what follows. */
  lemma {:induction false} RefusalIsHandedOn(
    cmd: Command, engine: Engine, o: Outcome, expires: nat -> bool, acts: seq<Act>, answer: Answer)
    requires SendsOnce(cmd, engine, o, expires, acts, answer) && engine.accepts(o)
    ensures acts[0].Sent? && acts[0].outcome == o
    ensures var result := acts[0].result;
            result.CommitFailed? && !Holds(result.error, IsLost) && !Holds(result.error, IsAmbiguous)
            && (forall i | 0 <= i < |acts| && acts[i].Polled? :: acts[i].read == Row(None)) ==>
              answer == Failed(result.error) && KindOf(answer) == ClassifyAttempt(Some(result.error))
  {
    var result, body := acts[0].result, acts[..|acts| - 1];
    assert body[0] == acts[0];
    if result.CommitFailed? && !Holds(result.error, IsLost) && !Holds(result.error, IsAmbiguous)
       && (forall i | 0 <= i < |acts| && acts[i].Polled? :: acts[i].read == Row(None)) {
      if Settleable(result.error) { assert body[1..][0] == acts[1]; }
    }
  }

  /** Sends the commit that records an outcome, and settles its result. */
  method CommitOutcome(store: Store, cmd: Command, engine: Engine, o: Outcome, expires: nat -> bool)
    returns (answer: Answer, ghost acts: seq<Act>)
    requires store.Valid() && o.commandID == cmd.id && o.digest == cmd.digest
    modifies store
    ensures store.Valid() && Sound(cmd, answer, old(store.applied), store.applied, store.outcomes)
    ensures store.trace == old(store.trace) + acts && SendsOnce(cmd, engine, o, expires, acts, answer)
    ensures Quiet(old(store.script)) ==> Quiet(store.script)
    ensures Quiet(old(store.script)) && engine.accepts(o) ==> !answer.Failed?
  {
    ghost var body: seq<Act> := [];
    if !engine.accepts(o) {
      answer := Failed(Error(Plain, []));
    } else {
      answer, body := SendAndSettle(store, cmd, o, engine.window, expires);
    }
    store.trace := store.trace + [Settled(answer)];
    InARow(old(store.trace), body, [Settled(answer)]);
    acts := body + [Settled(answer)];
  }

  method SendAndSettle(store: Store, cmd: Command, o: Outcome, window: int, expires: nat -> bool)
    returns (answer: Answer, ghost acts: seq<Act>)
    requires store.Valid() && o.commandID == cmd.id && o.digest == cmd.digest
    modifies store
    ensures store.Valid() && Sound(cmd, answer, old(store.applied), store.applied, store.outcomes)
    ensures store.trace == old(store.trace) + acts && SentFirst(cmd, window, o, expires, acts, answer)
    ensures Quiet(old(store.script)) ==> Quiet(store.script) && !answer.Failed?
  {
    var reply := store.Commit(o);
    if reply.Committed? {
      return Answered(o, false), [Sent(o, reply)];
    }
    ghost var before, settled := store.applied, [];
    answer, settled := Settle(store, cmd, reply.error, window, expires);
    InARow(old(store.trace), [Sent(o, reply)], settled);
    acts := [Sent(o, reply)] + settled;
    SoundEarlier(cmd, answer, old(store.applied), before, store.applied, store.outcomes);
  }

  /** The engine's own rejection: an outcome with no events, fences or snapshots. */
  function StaleOutcome(cmd: Command, rejection: Rejection): Outcome
  {
    Outcome(cmd.id, cmd.digest, Rejected, "", Some(rejection), [])
  }

  /** Both engine rejections are rejections without events, and neither can be taken for the other. */
  lemma {:induction false} EngineRejects(cmd: Command, code: string, window: int)
    ensures var engine := EngineOf(code, window);
            var caller, exhausted := StaleOutcome(cmd, engine.callerFence), StaleOutcome(cmd, engine.retriesExhausted);
            && caller.status.Rejected? && exhausted.status.Rejected? && caller.eventIDs == exhausted.eventIDs == []
            && caller.rejection.value.code == exhausted.rejection.value.code == code && caller != exhausted
            && (engine.accepts(caller) ==> caller.commandID == cmd.id && caller.digest == cmd.digest && code != "")
            && (forall o :: engine.accepts(o) <==> OutcomeOK(o))
  {
    assert EngineOf(code, window).callerFence.message[0] == 'a';
  }

  /** Records the engine's own rejection. */
  method StaleFence(store: Store, cmd: Command, engine: Engine, rejection: Rejection, expires: nat -> bool)
    returns (answer: Answer, ghost acts: seq<Act>)
    requires store.Valid()
    modifies store
    ensures store.Valid() && Sound(cmd, answer, old(store.applied), store.applied, store.outcomes)
    ensures store.trace == old(store.trace) + acts
    ensures SendsOnce(cmd, engine, StaleOutcome(cmd, rejection), expires, acts, answer)
    ensures Quiet(old(store.script)) ==> Quiet(store.script)
    ensures Quiet(old(store.script)) && engine.accepts(StaleOutcome(cmd, rejection)) ==> !answer.Failed?
  {
    answer, acts := CommitOutcome(store, cmd, engine, StaleOutcome(cmd, rejection), expires);
  }

  /** What an attempt would do when it runs: the load and the handler are the application's. */
  datatype Plan =
    | LoadFails(failure: Error)
    | PrepareFails(failure: Error, readFailure: Option<Error>)
    | Decides(status: Status, response: string, rejection: Option<Rejection>, events: seq<string>, callerFences: bool)

  /** The outcome a plan decides. */
  function Planned(cmd: Command, plan: Plan): Outcome
    requires plan.Decides?
  {
    Outcome(cmd.id, cmd.digest, plan.status, plan.response, plan.rejection, plan.events)
  }

  /** The plan reaches a decision the store accepts as an outcome. */
  predicate Commits(cmd: Command, plan: Plan, engine: Engine)
  {
    plan.Decides? && engine.accepts(Planned(cmd, plan))
  }

  /** The commit failed on a fence the caller stamped. */
  predicate Fenced(plan: Plan, answer: Answer)
  {
    plan.Decides? && plan.callerFences && answer.Failed? && FailedCallerFence(answer.error)
  }

  /**
    What committing a plan does: its decision is sent and settled, and when a caller's fence
    failed, and only then, so is the engine's rejection, whose settling is then the answer.
   */
  ghost predicate CommitsAs(
    cmd: Command, plan: Plan, engine: Engine, expires: nat -> bool, first: seq<Act>, settled: Answer, second: seq<Act>,
    answer: Answer)
  {
    && plan.Decides? && SendsOnce(cmd, engine, Planned(cmd, plan), expires, first, settled)
    && if Fenced(plan, settled) then
         SendsOnce(cmd, engine, StaleOutcome(cmd, engine.callerFence), expires, second, answer)
       else second == [] && answer == settled
  }

  ghost predicate CommitsPlan(
    cmd: Command, plan: Plan, engine: Engine, expires: nat -> bool, acts: seq<Act>, answer: Answer)
  {
    exists first, settled, second ::
      CommitsAs(cmd, plan, engine, expires, first, settled, second, answer) && acts == first + second
  }

  /** Commits a plan's decision; a failed caller's fence becomes the engine's rejection. */
  method CommitPlan(store: Store, cmd: Command, plan: Plan, engine: Engine, expires: nat -> bool)
    returns (answer: Answer, ghost acts: seq<Act>)
    requires store.Valid() && plan.Decides?
    modifies store
    ensures store.Valid() && Sound(cmd, answer, old(store.applied), store.applied, store.outcomes)
    ensures store.trace == old(store.trace) + acts && CommitsPlan(cmd, plan, engine, expires, acts, answer)
    ensures answer.Answered? && !answer.replayed ==>
              || answer.outcome == Planned(cmd, plan)
              || (plan.callerFences && answer.outcome == StaleOutcome(cmd, engine.callerFence))
    ensures Quiet(old(store.script)) ==> Quiet(store.script)
    ensures Quiet(old(store.script)) && Commits(cmd, plan, engine) ==> !answer.Failed?
  {
    ghost var first, second: seq<Act> := [], [];
    answer, first := CommitOutcome(store, cmd, engine, Planned(cmd, plan), expires);
    ghost var settled := answer;
    if plan.callerFences && answer.Failed? && FailedCallerFence(answer.error) {
      ghost var before := store.applied;
      answer, second := StaleFence(store, cmd, engine, engine.callerFence, expires);
      SoundEarlier(cmd, answer, old(store.applied), before, store.applied, store.outcomes);
    }
    InARow(old(store.trace), first, second);
    NothingMore(old(store.trace) + first);
    acts := first + second;
    assert CommitsAs(cmd, plan, engine, expires, first, settled, second, answer);
  }

  /** One attempt as it went: what the row said first, what was committed, and the answer. */
  datatype Try = Try(reply: ReadReply, commits: seq<Act>, answer: Answer)
  {
    function Acts(id: string): seq<Act>
    {
      [Polled(id, reply)] + commits + [Attempted(answer)]
    }
  }

  /** An attempt reads the row; only without one it loads, decides and commits. */
  ghost predicate IsAttempt(cmd: Command, plan: Plan, engine: Engine, expires: nat -> bool, t: Try)
  {
    match ReadAs(cmd, t.reply)
    case Some(read) => t.answer == read && t.commits == []
    case None =>
      match plan
      case LoadFails(failure) => t.answer == Failed(Error(LoadFailure, [failure])) && t.commits == []
      case PrepareFails(failure, readFailure) =>
        t.answer == Failed(PrepareFailed(failure, readFailure)) && t.commits == []
      case Decides(_, _, _, _, _) => CommitsPlan(cmd, plan, engine, expires, t.commits, t.answer)
  }

  /** One attempt: read the row, and only without one load, decide and commit. */
  method AttemptOnce(store: Store, cmd: Command, plan: Plan, engine: Engine, expires: nat -> bool)
    returns (answer: Answer, ran: bool, ghost t: Try)
    requires store.Valid()
    modifies store
    ensures store.Valid() && Sound(cmd, answer, old(store.applied), store.applied, store.outcomes)
    ensures store.trace == old(store.trace) + t.Acts(cmd.id) && t.answer == answer
    ensures IsAttempt(cmd, plan, engine, expires, t) && (ran <==> t.reply == Row(None))
    ensures cmd.id in old(store.outcomes) ==> !ran
    ensures answer.Answered? && !answer.replayed ==> ran && plan.Decides?
    ensures answer.Answered? && !answer.replayed ==>
              || answer.outcome == Planned(cmd, plan)
              || (plan.callerFences && answer.outcome == StaleOutcome(cmd, engine.callerFence))
    ensures Quiet(old(store.script)) ==> Quiet(store.script)
    ensures Quiet(old(store.script)) && Commits(cmd, plan, engine) ==> !answer.Failed?
  {
    var row;
    ghost var reply;
    row, reply := Reread(store, cmd);
    ghost var start, middle := store.applied, [];
    if cmd.id in old(store.outcomes) {
      RowsAreForever(old(store.applied), old(store.outcomes), store.applied, store.outcomes, cmd.id);
    }
    ran := row.None?;
    NothingMore(store.trace);
    if row.Some? {
      answer := row.value;
    } else {
      match plan {
        case LoadFails(failure) => answer := Failed(Error(LoadFailure, [failure]));
        case PrepareFails(failure, readFailure) => answer := Failed(PrepareFailed(failure, readFailure));
        case Decides(_, _, _, _, _) =>
          answer, middle := CommitPlan(store, cmd, plan, engine, expires);
          SoundEarlier(cmd, answer, old(store.applied), start, store.applied, store.outcomes);
      }
    }
    t := Try(reply, middle, answer);
    InARow(old(store.trace), [Polled(cmd.id, reply)], middle);
    InARow(old(store.trace), [Polled(cmd.id, reply)] + middle, [Attempted(answer)]);
    store.trace := store.trace + [Attempted(answer)];
  }

  // ----- The whole command

  function ErrorOf(answer: Answer): Option<Error>
  {
    match answer
    case Answered(_, _) => None
    case Reused(_) => Some(Error(KeyReuse, []))
    case Failed(e) => Some(e)
  }

  function KindOf(answer: Answer): RetryKind { ClassifyAttempt(ErrorOf(answer)) }

  /** A command that has its answer is not attempted again. */
  lemma {:induction false} AnswersAreFinal(answer: Answer)
    requires !answer.Failed?
    ensures KindOf(answer).Never? && Handed(answer) == answer
  {
    if answer.Reused? {
      Single(KeyReuse);
      var e := Error(KeyReuse, []);
      assert Nodes(e)[0].kind == KeyReuse && Holds(e, IsSettled);
      assert First(e, IsLoad).None?;
    }
  }

  function Handed(answer: Answer): Answer
  {
    if answer.Failed? then Failed(Unmarked(Some(answer.error)).value) else answer
  }

  /** Callers get their own errors back: the loop's marks are removed, and other errors are not touched. */
  lemma {:induction false} MarksAreRemoved(e: Error)
    ensures Handed(Failed(Error(Internal, [e]))) == Failed(e)
    ensures !Holds(e, IsInternal) ==> Handed(Failed(Error(LoadFailure, [e]))) == Failed(e)
    ensures !Holds(e, IsInternal) && !Holds(e, IsLoad) ==> Handed(Failed(e)) == Failed(e)
  {
    var internal, loaded := Error(Internal, [e]), Error(LoadFailure, [e]);
    assert Nodes(internal)[0] == internal && Nodes(loaded)[0] == loaded;
    OnlyCause(loaded, e);
    FirstInFinds(Nodes(e), IsInternal);
    FirstInFinds(Nodes(e), IsLoad);
    FirstInFinds(Nodes(loaded), IsInternal);
    if !Holds(e, IsInternal) {
      forall i | 0 <= i < |Nodes(loaded)| ensures !IsInternal(Nodes(loaded)[i].kind) {
        if i > 0 { assert Nodes(loaded)[i] == Nodes(e)[i - 1]; }
      }
    }
  }

  lemma {:induction false} OnlyCause(outer: Error, e: Error)
    requires outer.causes == [e]
    ensures Nodes(outer) == [outer] + Nodes(e)
  {
    assert NodesOf([e]) == Nodes(e) + NodesOf([e][1..]) && NodesOf([e][1..]) == [];
  }

  /** The last failure, wrapped beside the error that cut the wait short. */
  function Interrupted(answer: Answer): Answer
  {
    if answer.Failed? then Failed(Error(Plain, [Error(Plain, []), Unmarked(Some(answer.error)).value])) else answer
  }

  datatype Clock = Clock(elapsed: nat -> int, cancelled: nat -> bool, expires: nat -> bool)

  /** The rules under which a command is attempted: the policy, whether it can be prepared again, and the time. */
  datatype Rules = Rules(policy: Policy, once: bool, clock: Clock, jitter: int -> int)
  {
    /** The wait after attempt number `n`. */
    function Wait(n: nat): int { DelayOf(policy, n, jitter) }

    /** No attempts or no time for another one are left after attempt number `n`. */
    predicate RunOut(n: nat)
    {
      n >= Attempts(policy) || (policy.deadline > 0 && clock.elapsed(n) + Wait(n) >= policy.deadline)
    }

    /** Attempt number `n`, which gave this answer, is final. */
    predicate Ends(n: nat, answer: Answer)
    {
      KindOf(answer).Never? || once || RunOut(n) || clock.cancelled(n)
    }

    /** The command ends as the engine's own rejection. */
    predicate Exhausts(n: nat, answer: Answer)
    {
      KindOf(answer).AfterConflict? && !once && RunOut(n)
    }

    /** What a command that did not run out in a conflict returns. */
    function Returned(n: nat, answer: Answer): Answer
    {
      if KindOf(answer).Never? || once || RunOut(n) then Handed(answer) else Interrupted(answer)
    }
  }

  /** What follows an attempt. */
  datatype Verdict = Retry(delay: int) | Return | Exhaust | Interrupt

  method Judge(rules: Rules, n: nat, answer: Answer) returns (verdict: Verdict)
    requires n >= 1 && rules.policy.baseDelay <= MAX_INT64 && rules.policy.maxDelay <= MAX_INT64
    ensures verdict.Retry? <==> !rules.Ends(n, answer)
    ensures verdict.Retry? ==> verdict.delay == rules.Wait(n)
    ensures verdict.Exhaust? <==> rules.Exhausts(n, answer)
    ensures verdict.Return? ==> rules.Returned(n, answer) == Handed(answer)
    ensures verdict.Interrupt? ==> rules.Returned(n, answer) == Interrupted(answer)
  {
    var limit := Attempts(rules.policy);
    if rules.once {
      limit := 1;
    }
    var kind := KindOf(answer);
    if kind.Never? || rules.once {
      return Return;
    }
    var delay := Delay(rules.policy, n, rules.jitter);
    var pastDeadline := rules.policy.deadline > 0 && rules.clock.elapsed(n) + delay >= rules.policy.deadline;
    if n >= limit || pastDeadline {
      return if kind.AfterConflict? then Exhaust else Return;
    }
    if rules.clock.cancelled(n) {
      return Interrupt;
    }
    verdict := Retry(delay);
  }

  /** The acts of the attempts, each with the wait after it. */
  function Waiting(rules: Rules, id: string, tries: seq<Try>): seq<Act>
  {
    if tries == [] then []
    else
      var n := |tries|;
      Waiting(rules, id, tries[..n - 1]) + tries[n - 1].Acts(id) + [Waited(rules.Wait(n))]
  }

  /** Attempt number `k + 1` follows the plan of that number. */
  ghost predicate FollowsPlan(
    rules: Rules, cmd: Command, plan: nat -> Plan, engine: Engine, tries: seq<Try>, k: nat)
    requires k < |tries|
  {
    IsAttempt(cmd, plan(k + 1), engine, rules.clock.expires, tries[k])
  }

  /** The attempts so far, none of them final. */
  ghost predicate NoneFinal(rules: Rules, cmd: Command, plan: nat -> Plan, engine: Engine, tries: seq<Try>)
  {
    && |tries| < Attempts(rules.policy) && (rules.once ==> tries == [])
    && forall k | 0 <= k < |tries| ::
         FollowsPlan(rules, cmd, plan, engine, tries, k) && !rules.Ends(k + 1, tries[k].answer)
  }

  lemma {:induction false} TryAdded(
    rules: Rules, cmd: Command, plan: nat -> Plan, engine: Engine, tries: seq<Try>, last: Try)
    requires NoneFinal(rules, cmd, plan, engine, tries) && !rules.Ends(|tries| + 1, last.answer)
    requires IsAttempt(cmd, plan(|tries| + 1), engine, rules.clock.expires, last)
    ensures NoneFinal(rules, cmd, plan, engine, tries + [last])
    ensures Waiting(rules, cmd.id, tries + [last]) ==
            Waiting(rules, cmd.id, tries) + last.Acts(cmd.id) + [Waited(rules.Wait(|tries| + 1))]
  {
    var all := tries + [last];
    assert all[..|tries|] == tries && all[|tries|] == last;
    forall k | 0 <= k < |all|
      ensures FollowsPlan(rules, cmd, plan, engine, all, k) && !rules.Ends(k + 1, all[k].answer)
    {
      if k < |tries| { assert all[k] == tries[k] && FollowsPlan(rules, cmd, plan, engine, tries, k); }
    }
  }

  /**
    A whole execution: attempts that were not final, and one that was. `after` is what was done
    when they had ended: with a final conflict and no attempts or time left, and only then, the
    engine's rejection is sent; otherwise nothing is, and the last attempt's answer is returned.
   */
  ghost predicate IsExecution(
    rules: Rules, cmd: Command, plan: nat -> Plan, engine: Engine, tries: seq<Try>, last: Try, after: seq<Act>,
    answer: Answer)
  {
    var n := |tries| + 1;
    && NoneFinal(rules, cmd, plan, engine, tries)
    && IsAttempt(cmd, plan(n), engine, rules.clock.expires, last) && rules.Ends(n, last.answer)
    && if rules.Exhausts(n, last.answer) then
         SendsOnce(cmd, engine, StaleOutcome(cmd, engine.retriesExhausted), rules.clock.expires, after, answer)
       else after == [] && answer == rules.Returned(n, last.answer)
  }

  /** Another attempt follows attempt number `n`, in the policy's own terms. */
  predicate GoesAgain(rules: Rules, n: nat, answer: Answer)
  {
    && !rules.once && answer.Failed? && !ClassifyAttempt(Some(answer.error)).Never?
    && n < rules.policy.maxAttempts && !rules.clock.cancelled(n)
    && (rules.policy.deadline > 0 ==>
          rules.clock.elapsed(n) + DelayOf(rules.policy, n, rules.jitter) < rules.policy.deadline)
  }

  /**
    How many attempts are made: at least one, at most MaxAttempts and one for a command that
    cannot be prepared again; another follows exactly while the failure is worth it and attempts,
    time and the caller allow; and the engine's rejection ends exactly a conflict for which
    attempts or time ran out.
   */
  lemma {:induction false} AttemptsExactly(
    rules: Rules, cmd: Command, plan: nat -> Plan, engine: Engine, tries: seq<Try>, last: Try, after: seq<Act>,
    answer: Answer)
    requires IsExecution(rules, cmd, plan, engine, tries, last, after, answer)
    ensures var made, max := |tries| + 1, if rules.policy.maxAttempts < 1 then 1 else rules.policy.maxAttempts;
            && made <= max && (rules.once ==> made == 1)
            && (!KindOf(last.answer).Never? && !rules.once && rules.policy.deadline <= 0 && !rules.clock.cancelled(made)
                ==> made == max)
    ensures forall k | 0 <= k < |tries| :: GoesAgain(rules, k + 1, tries[k].answer)
    ensures !GoesAgain(rules, |tries| + 1, last.answer)
    ensures after != [] <==>
            && !rules.once && last.answer.Failed? && ClassifyAttempt(Some(last.answer.error)).AfterConflict?
            && var made := |tries| + 1;
               || made >= rules.policy.maxAttempts
               || (rules.policy.deadline > 0
                   && rules.clock.elapsed(made) + DelayOf(rules.policy, made, rules.jitter) >= rules.policy.deadline)
    ensures !rules.once && after == [] && !KindOf(last.answer).Never? && last.answer.Failed?
            && |tries| + 1 < rules.policy.maxAttempts && rules.policy.deadline <= 0 ==>
              answer.Failed? && |answer.error.causes| == 2 && Handed(last.answer) == Failed(answer.error.causes[1])
  {
    forall k | 0 <= k < |tries| ensures GoesAgain(rules, k + 1, tries[k].answer) {
      assert !rules.Ends(k + 1, tries[k].answer);
      if !tries[k].answer.Failed? { AnswersAreFinal(tries[k].answer); }
    }
    if !last.answer.Failed? { AnswersAreFinal(last.answer); }
  }

  /**
    Executes a command under fence-aware retry. It makes attempts until one is final, waiting the
    policy's delay between them: an attempt is final when its failure is not worth retrying, the
    command cannot be prepared again, attempts or time run out, or the wait is cut short. When the
    last failure is a genuine conflict and attempts or time ran out, and only then, the engine's
    rejection is sent after it and nothing else; otherwise the last attempt's answer is returned.
   */
  method Execute(store: Store, cmd: Command, rules: Rules, plan: nat -> Plan, engine: Engine)
    returns (answer: Answer, ghost tries: seq<Try>, ghost last: Try, ghost after: seq<Act>)
    requires store.Valid() && rules.policy.baseDelay <= MAX_INT64 && rules.policy.maxDelay <= MAX_INT64
    modifies store
    ensures store.Valid() && Sound(cmd, answer, old(store.applied), store.applied, store.outcomes)
    ensures store.trace == old(store.trace) + (Waiting(rules, cmd.id, tries) + last.Acts(cmd.id)) + after
    ensures IsExecution(rules, cmd, plan, engine, tries, last, after, answer)
    ensures rules.Exhausts(|tries| + 1, last.answer) && answer.Failed? ==>
              !Quiet(old(store.script)) || !engine.accepts(StaleOutcome(cmd, engine.retriesExhausted))
    ensures Quiet(old(store.script)) && Commits(cmd, plan(1), engine) ==> tries == [] && !answer.Failed?
  {
    tries, after := [], [];
    var made := 0;
    ghost var done: seq<Act>, sure := [], Quiet(store.script) && Commits(cmd, plan(1), engine);
    while true
      invariant store.Valid() && old(store.applied) <= store.applied
      invariant made == |tries| && done == Waiting(rules, cmd.id, tries) && store.trace == old(store.trace) + done
      invariant NoneFinal(rules, cmd, plan, engine, tries)
      invariant Quiet(old(store.script)) ==> Quiet(store.script)
      invariant sure ==> made == 0
      decreases Attempts(rules.policy) - made
    {
      ghost var before := store.applied;
      var ran;
      made := made + 1;
      answer, ran, last := AttemptOnce(store, cmd, plan(made), engine, rules.clock.expires);
      SoundEarlier(cmd, answer, old(store.applied), before, store.applied, store.outcomes);
      InARow(old(store.trace), done, last.Acts(cmd.id));
      NothingMore(store.trace);
      if !answer.Failed? { AnswersAreFinal(answer); }
      var verdict := Judge(rules, made, answer);
      match verdict {
        case Return => return Handed(answer), tries, last, [];
        case Interrupt => return Interrupted(answer), tries, last, [];
        case Exhaust =>
          ghost var applied := store.applied;
          answer, after := StaleFence(store, cmd, engine, engine.retriesExhausted, rules.clock.expires);
          SoundEarlier(cmd, answer, old(store.applied), applied, store.applied, store.outcomes);
          return answer, tries, last, after;
        case Retry(delay) =>
          TryAdded(rules, cmd, plan, engine, tries, last);
          store.Pass(Waited(delay));
          InARow(old(store.trace), done + last.Acts(cmd.id), [Waited(delay)]);
          tries, done := tries + [last], done + last.Acts(cmd.id) + [Waited(delay)];
      }
    }
  }

  // ----- What every run promises

  /**
    Two answers to one command ID, given to any callers at any two moments of a run, are the same
    row, and callers with different digests never both get it as their own.
   */
  lemma {:induction false} OneAnswerPerCommand(
    id: string, c: Command, x: Answer, d: Command, y: Answer,
    applied: seq<Outcome>, rows: map<string, Outcome>, later: seq<Outcome>, laterRows: map<string, Outcome>)
    requires c.id == id && d.id == id && applied <= later
    requires RowsOf(applied, rows) && RowsOf(later, laterRows)
    requires Sound(c, x, [], applied, rows) && Sound(d, y, [], later, laterRows)
    ensures x.Answered? && y.Answered? ==> x.outcome == y.outcome && c.digest == d.digest
    ensures x.Answered? && y.Reused? ==> x.outcome == y.prior && c.digest != d.digest
    ensures x.Reused? && y.Answered? ==> x.prior == y.outcome && c.digest != d.digest
    ensures x.Reused? && y.Reused? ==> x.prior == y.prior
  {
    if id in rows { RowsAreForever(applied, rows, later, laterRows, id); }
  }

  /** Once a rejection without events is the answer, no commit of that command ever writes an event. */
  lemma {:induction false} RejectionExcludesEvents(
    c: Command, x: Answer, applied: seq<Outcome>, rows: map<string, Outcome>, later: seq<Outcome>,
    laterRows: map<string, Outcome>, i: nat)
    requires RowsOf(applied, rows) && RowsOf(later, laterRows) && AtMostOnce(later) && applied <= later
    requires Sound(c, x, [], applied, rows) && x.Answered? && x.outcome.eventIDs == []
    requires i < |later| && later[i].commandID == c.id
    ensures later[i] == x.outcome && later[i].eventIDs == []
  {
    RowsAreForever(applied, rows, later, laterRows, c.id);
  }
}
