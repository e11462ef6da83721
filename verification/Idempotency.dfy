/** Requests that carry an Idempotency-Key: idempotency.service.ts and idempotency.interceptor.ts. */
module Idempotency {
  import opened Wrappers

  /** The scope and the key. */
  type Key = (string, string)
  type Fingerprint = string
  type Body = string

  datatype State = InProgress | Completed(body: Body)

  datatype Record = Record(fingerprint: Fingerprint, state: State, lockedUntil: int, expiresAt: int)

  type Records = map<Key, Record>

  const LOCK_TTL_MS := 30_000
  const RETENTION_MS := 24 * 60 * 60 * 1000
  const WAIT_TIMEOUT_MS := 10_000
  const POLL_INTERVAL_MS := 100

  // ---------------------------------------------------------------- the store

  /** Whether the upsert of claim takes the key: it is new, past its retention, or the holder of
      the same request has outlived its lock. */
  predicate Takes(records: Records, key: Key, fingerprint: Fingerprint, now: int) {
    || key !in records
    || records[key].expiresAt < now
    || (records[key].state == InProgress && records[key].lockedUntil < now && records[key].fingerprint == fingerprint)
  }

  function NewRecord(fingerprint: Fingerprint, now: int): Record {
    Record(fingerprint, InProgress, now + LOCK_TTL_MS, now + RETENTION_MS)
  }

  datatype ClaimResult = Taken | Replay(body: Body) | Busy | Mismatch

  /** What claim answers when it did not take the key, from a later read of the record. */
  function Inspect(records: Records, key: Key, fingerprint: Fingerprint): ClaimResult {
    if key !in records then Busy
    else if records[key].fingerprint != fingerprint then Mismatch
    else match records[key].state
         case Completed(body) => Replay(body)
         case InProgress => Busy
  }

  /** complete looks for the key only, not for the owner. */
  function WithCompleted(records: Records, key: Key, body: Body): Records {
    if key in records then records[key := records[key].(state := Completed(body))] else records
  }

  function WithReleased(records: Records, key: Key): Records {
    if key in records && records[key].state == InProgress then records - {key} else records
  }

  function WithoutExpired(records: Records, now: int): Records {
    map key | key in records && records[key].expiresAt >= now :: records[key]
  }

  /** Whether a request takes its key, and its answer if not, for every record: a stored answer is
      replayed to the same request and refused to another until its retention is over, whoever asks
      next executes again; a record in progress keeps the same request waiting until its lock is
      over, and refuses another one until its retention is. */
  lemma ClaimExactly(records: Records, key: Key, record: Record, fingerprint: Fingerprint, now: int)
    requires key in records && records[key] == record
    ensures var takes, answer := Takes(records, key, fingerprint, now), Inspect(records, key, fingerprint);
            && (record.state.Completed? ==> (takes <==> now > record.expiresAt))
            && (record.state.InProgress? && record.fingerprint == fingerprint ==>
                  (takes <==> now > record.lockedUntil || now > record.expiresAt))
            && (record.state.InProgress? && record.fingerprint != fingerprint ==> (takes <==> now > record.expiresAt))
            && (answer == Mismatch <==> record.fingerprint != fingerprint)
            && (answer == Busy <==> record.fingerprint == fingerprint && record.state.InProgress?)
            && (answer.Replay? <==> record.fingerprint == fingerprint && record.state.Completed?)
            && (answer.Replay? ==> record.state == Completed(answer.body))
            && answer != Taken
  {
  }

  /** A key without a record is taken, for 30 s, and remembered for a day. */
  lemma FreeKeyIsTaken(records: Records, key: Key, fingerprint: Fingerprint, now: int)
    requires key !in records
    ensures Takes(records, key, fingerprint, now) && Inspect(records, key, fingerprint) == Busy
    ensures NewRecord(fingerprint, now) == Record(fingerprint, InProgress, now + 30_000, now + 86_400_000)
  {
  }

  /** What the writes at the end of a handler and the cleanup do to every record of the table:
      completing keeps the fingerprint and the times, releasing never deletes a stored answer, and
      the cleanup deletes what is past its retention. */
  lemma EndingsExactly(records: Records, key: Key, body: Body, now: int, other: Key)
    ensures var completed, released := WithCompleted(records, key, body), WithReleased(records, key);
            && (other in completed <==> other in records)
            && (other in records && other != key ==> completed[other] == records[other])
            && (key in records ==>
                  var Record(fingerprint, _, lockedUntil, expiresAt) := records[key];
                  completed[key] == Record(fingerprint, Completed(body), lockedUntil, expiresAt))
            && (other in released <==> other in records && (other == key ==> records[key].state.Completed?))
            && (other in released ==> released[other] == records[other])
    ensures other in WithoutExpired(records, now) <==> other in records && now <= records[other].expiresAt
    ensures other in WithoutExpired(records, now) ==> WithoutExpired(records, now)[other] == records[other]
  {
  }

  /** How the request handler ended. */
  datatype Handled = Returned(body: Body) | Threw

  class Store {
    var records: Records

    constructor ()
      ensures records == map[]
    {
      records := map[];
    }

    /** The upsert and, when it did not take the key, a separate read of the record. meanwhile is the
        table as other requests have left it by then. */
    method Claim(key: Key, fingerprint: Fingerprint, now: int, meanwhile: Records) returns (result: ClaimResult)
      modifies this
      ensures Takes(old(records), key, fingerprint, now) ==>
                result == Taken && records == old(records)[key := NewRecord(fingerprint, now)]
      ensures !Takes(old(records), key, fingerprint, now) ==>
                result == Inspect(meanwhile, key, fingerprint) && records == meanwhile
    {
      if Takes(records, key, fingerprint, now) {
        records := records[key := NewRecord(fingerprint, now)];
        return Taken;
      }
      records := meanwhile;
      var existing := if key in records then Some(records[key]) else None;
      if existing.None? {
        return Busy;
      }
      if existing.value.fingerprint != fingerprint {
        return Mismatch;
      }
      if existing.value.state.Completed? {
        return Replay(existing.value.state.body);
      }
      return Busy;
    }

    /** execute: a handler that throws gives the key back, one that returns stores its body. Either
        write may fail, which is only logged. */
    method Execute(key: Key, handled: Handled, storeFails: bool) returns (answer: Option<Body>)
      modifies this
      ensures answer == if handled.Returned? then Some(handled.body) else None
      ensures records == if storeFails then old(records)
                         else if handled.Returned? then WithCompleted(old(records), key, handled.body)
                         else WithReleased(old(records), key)
    {
      match handled
      case Threw =>
        if !storeFails {
          records := WithReleased(records, key);
        }
        return None;
      case Returned(body) =>
        if !storeFails {
          records := WithCompleted(records, key, body);
        }
        return Some(body);
    }

    method DeleteExpired(now: int) returns (deleted: nat)
      modifies this
      ensures records == WithoutExpired(old(records), now)
      ensures deleted == |old(records)| - |records|
    {
      var expired := set key | key in records && records[key].expiresAt < now;
      assert WithoutExpired(records, now) == records - expired;
      assert (records - expired).Keys == records.Keys - expired;
      records := records - expired;
      deleted := |expired|;
    }
  }

  /** The polling loop of the interceptor: results are the answers of claim to its polls, clock the
      times read after each. It stops at the first poll that is not busy, or at the first one that
      is busy after ten seconds, which is at most the hundredth after the first. */
  method Poll(results: nat -> ClaimResult, start: int, clock: nat -> int) returns (result: ClaimResult, polls: nat)
    requires start <= clock(0) && forall i: nat :: clock(i) + 100 <= clock(i + 1)
    ensures result == results(polls) && polls <= 100
    ensures forall i: nat :: i < polls ==> results(i) == Busy && clock(i) < start + 10_000
    ensures result == Busy ==> clock(polls) >= start + 10_000
  {
    var deadline := start + WAIT_TIMEOUT_MS;
    polls := 0;
    result := results(0);
    while result == Busy && clock(polls) < deadline
      invariant result == results(polls)
      invariant clock(polls) >= start + POLL_INTERVAL_MS * polls
      invariant polls > 0 ==> clock(polls - 1) < deadline && clock(polls - 1) >= start + POLL_INTERVAL_MS * (polls - 1)
      invariant forall i: nat :: i < polls ==> results(i) == Busy && clock(i) < deadline
      decreases deadline - clock(polls)
    {
      polls := polls + 1;
      result := results(polls);
    }
  }

  // ---------------------------------------------------------------- runs

  type Token = int

  /** One execution of a handler, from its claim until it ends. */
  datatype Execution = Execution(key: Key, fingerprint: Fingerprint, lockedUntil: int, running: bool)

  datatype World = World(records: Records, executions: map<Token, Execution>, clock: int)

  const INITIAL := World(map[], map[], 0)

  /** now is the time that a statement works with, at the time it takes effect. */
  datatype Step =
    | Claim(token: Token, key: Key, fingerprint: Fingerprint, now: int, at: int)
    | Finish(token: Token, handled: Handled, at: int)
    | Vanish(token: Token, at: int)
    | Clean(now: int, at: int)

  predicate Enabled(w: World, step: Step) {
    && w.clock <= step.at
    && match step
       case Claim(token, _, _, now, at) => token !in w.executions && now <= at
       case Finish(token, _, _) => token in w.executions && w.executions[token].running
       case Vanish(token, _) => token in w.executions && w.executions[token].running
       case Clean(now, at) => now <= at
  }

  /** No running execution outlives its 30 s lock. */
  ghost predicate InTime(w: World, at: int) {
    forall token :: token in w.executions && w.executions[token].running ==> at <= w.executions[token].lockedUntil
  }

  function Stopped(executions: map<Token, Execution>, token: Token): map<Token, Execution>
    requires token in executions
  {
    executions[token := executions[token].(running := false)]
  }

  function Next(w: World, step: Step): World
    requires Enabled(w, step)
  {
    match step
    case Claim(token, key, fingerprint, now, at) =>
      if Takes(w.records, key, fingerprint, now) then
        World(w.records[key := NewRecord(fingerprint, now)],
              w.executions[token := Execution(key, fingerprint, now + LOCK_TTL_MS, true)], at)
      else w.(clock := at)
    case Finish(token, handled, at) =>
      var key := w.executions[token].key;
      World(if handled.Returned? then WithCompleted(w.records, key, handled.body) else WithReleased(w.records, key),
            Stopped(w.executions, token), at)
    // a crash, or a write that failed
    case Vanish(token, at) => World(w.records, Stopped(w.executions, token), at)
    case Clean(now, at) => World(WithoutExpired(w.records, now), w.executions, at)
  }

  ghost predicate ValidRun(steps: seq<Step>)
    decreases |steps|, 0
  {
    steps == [] ||
    var n := |steps| - 1;
    ValidRun(steps[..n]) && Enabled(Reached(steps[..n]), steps[n]) && InTime(Reached(steps[..n]), steps[n].at)
  }

  ghost function Reached(steps: seq<Step>): World
    requires ValidRun(steps)
    decreases |steps|, 1
  {
    if steps == [] then INITIAL else Next(Reached(steps[..|steps| - 1]), steps[|steps| - 1])
  }

  /** A running execution owns the record of its key. */
  ghost predicate Inv(w: World) {
    && (forall token :: token in w.executions && w.executions[token].running ==>
          && w.executions[token].key in w.records
          && w.records[w.executions[token].key]
             == NewRecord(w.executions[token].fingerprint, w.executions[token].lockedUntil - LOCK_TTL_MS))
    && (forall a, b ::
          (a in w.executions && b in w.executions && w.executions[a].running && w.executions[b].running
           && w.executions[a].key == w.executions[b].key)
          ==> a == b)
  }

  lemma StepKeepsInv(w: World, step: Step)
    requires Inv(w) && Enabled(w, step) && InTime(w, step.at)
    ensures Inv(Next(w, step))
  {
  }

  lemma {:induction false} RunKeepsInv(steps: seq<Step>)
    requires ValidRun(steps)
    ensures Inv(Reached(steps))
  {
    hide Next, Enabled;
    if steps != [] {
      hide Inv;
      RunKeepsInv(steps[..|steps| - 1]);
      StepKeepsInv(Reached(steps[..|steps| - 1]), steps[|steps| - 1]);
    }
  }

  /** When every handler and its complete end within the lock, executions of one key never overlap. */
  lemma ExecutionsNeverOverlap(steps: seq<Step>, a: Token, b: Token)
    requires ValidRun(steps) && a in Reached(steps).executions && b in Reached(steps).executions
    requires Reached(steps).executions[a].running && Reached(steps).executions[b].running
    requires Reached(steps).executions[a].key == Reached(steps).executions[b].key
    ensures a == b
  {
    RunKeepsInv(steps);
  }

  /** The key holds that answer, and no execution of it is running. */
  ghost predicate Answered(w: World, key: Key, fingerprint: Fingerprint, body: Body, until: int) {
    && key in w.records && w.records[key].fingerprint == fingerprint
    && w.records[key].state == Completed(body) && w.records[key].expiresAt == until
    && forall token :: token in w.executions && w.executions[token].running ==> w.executions[token].key != key
  }

  lemma SuccessAnswers(w: World, step: Step)
    requires Inv(w) && Enabled(w, step) && step.Finish? && step.handled.Returned?
    ensures var execution := w.executions[step.token];
            Answered(Next(w, step), execution.key, execution.fingerprint, step.handled.body,
                     execution.lockedUntil - LOCK_TTL_MS + RETENTION_MS)
  {
  }

  lemma StepKeepsAnswer(w: World, step: Step, key: Key, fingerprint: Fingerprint, body: Body, until: int)
    requires Enabled(w, step) && step.at <= until && Answered(w, key, fingerprint, body, until)
    ensures Answered(Next(w, step), key, fingerprint, body, until)
  {
  }

  lemma {:induction false} AnswerStays(steps: seq<Step>, more: seq<Step>,
                                     key: Key, fingerprint: Fingerprint, body: Body, until: int)
    requires ValidRun(steps) && ValidRun(steps + more) && Answered(Reached(steps), key, fingerprint, body, until)
    requires forall k :: 0 <= k < |more| ==> more[k].at <= until
    ensures Answered(Reached(steps + more), key, fingerprint, body, until)
    decreases |more|
  {
    hide Next, Enabled, Answered;
    if more == [] {
      assert steps + more == steps;
    } else {
      var n := |more| - 1;
      assert (steps + more)[..|steps + more| - 1] == steps + more[..n];
      AnswerStays(steps, more[..n], key, fingerprint, body, until);
      StepKeepsAnswer(Reached(steps + more[..n]), more[n], key, fingerprint, body, until);
    }
  }

  /** After a success, no request with that key executes until the record expires, and every one
      does after that: until then, one with the same fingerprint gets exactly that body, one with
      another fingerprint is refused. */
  lemma SuccessIsReplayed(steps: seq<Step>, success: Step, more: seq<Step>, fingerprint: Fingerprint, now: int)
    requires ValidRun(steps) && success.Finish? && success.handled.Returned? && Enabled(Reached(steps), success)
    requires ValidRun(steps + [success] + more)
    requires var until := Reached(steps).executions[success.token].lockedUntil - LOCK_TTL_MS + RETENTION_MS;
             forall k :: 0 <= k < |more| ==> more[k].at <= until
    ensures var execution, w := Reached(steps).executions[success.token], Reached(steps + [success] + more);
            && (Takes(w.records, execution.key, fingerprint, now)
                <==> now > execution.lockedUntil - 30_000 + 86_400_000)
            && Inspect(w.records, execution.key, fingerprint)
               == if fingerprint == execution.fingerprint then Replay(success.handled.body) else Mismatch
  {
    hide Next, Inv, Answered, ValidRun, Reached, Takes, Inspect;
    var execution := Reached(steps).executions[success.token];
    var until := execution.lockedUntil - LOCK_TTL_MS + RETENTION_MS;
    RunKeepsInv(steps);
    SuccessAnswers(Reached(steps), success);
    PrefixIsValid(steps + [success], more);
    LastStep(steps, success);
    AnswerStays(steps + [success], more, execution.key, execution.fingerprint, success.handled.body, until);
    AnswerIsReplayed(Reached(steps + [success] + more), execution.key, execution.fingerprint,
                     success.handled.body, until, fingerprint, now);
  }

  lemma LastStep(steps: seq<Step>, step: Step)
    requires ValidRun(steps + [step])
    ensures ValidRun(steps) && Enabled(Reached(steps), step)
    ensures Reached(steps + [step]) == Next(Reached(steps), step)
  {
    hide Next, Enabled, InTime;
    assert (steps + [step])[..|steps + [step]| - 1] == steps;
  }

  lemma AnswerIsReplayed(w: World, key: Key, fingerprint: Fingerprint, body: Body, until: int, other: Fingerprint,
      now: int)
    requires Answered(w, key, fingerprint, body, until)
    ensures Takes(w.records, key, other, now) <==> now > until
    ensures Inspect(w.records, key, other) == if other == fingerprint then Replay(body) else Mismatch
  {
  }

  lemma {:induction false} PrefixIsValid(steps: seq<Step>, more: seq<Step>)
    requires ValidRun(steps + more)
    ensures ValidRun(steps)
    decreases |more|
  {
    hide Next, Enabled, InTime;
    if more == [] {
      assert steps + more == steps;
    } else {
      assert (steps + more)[..|steps + more| - 1] == steps + more[..|more| - 1];
      PrefixIsValid(steps, more[..|more| - 1]);
    }
  }

  // ---------------------------------------------------------------- handlers that outlive their lock

  /** While an execution runs, a request takes its key exactly when it has the same fingerprint and
      comes after the lock, or comes after the retention of the record. */
  lemma TakenOverExactly(w: World, holder: Token, fingerprint: Fingerprint, now: int)
    requires Inv(w) && holder in w.executions && w.executions[holder].running
    ensures var execution := w.executions[holder];
            Takes(w.records, execution.key, fingerprint, now)
            <==> || (now > execution.lockedUntil && fingerprint == execution.fingerprint)
                 || now > execution.lockedUntil - LOCK_TTL_MS + RETENTION_MS
  {
  }

  /** Then two executions of one key run at once, and exactly then. */
  lemma OverlapExactly(w: World, holder: Token, next: Token, fingerprint: Fingerprint, now: int, at: int)
    requires Inv(w) && holder in w.executions && w.executions[holder].running
    requires var claim := Claim(next, w.executions[holder].key, fingerprint, now, at); Enabled(w, claim)
    ensures var execution := w.executions[holder];
            var w1 := Next(w, Claim(next, execution.key, fingerprint, now, at));
            && w1.executions[holder].running
            && (next in w1.executions && w1.executions[next].running
                <==> || (now > execution.lockedUntil && fingerprint == execution.fingerprint)
                     || now > execution.lockedUntil - LOCK_TTL_MS + RETENTION_MS)
  {
  }

  /** An overtaken handler that returns stores its body under the new owner's record, and the new
      owner's body then replaces it. */
  lemma SlowHandlerOverlaps(w: World, slow: Token, fast: Token, now: int, first: Body, second: Body)
    requires Inv(w) && w.clock <= now && fast !in w.executions
    requires slow in w.executions && w.executions[slow].running && w.executions[slow].lockedUntil < now
    ensures var execution := w.executions[slow];
            var claim := Claim(fast, execution.key, execution.fingerprint, now, now);
            && Enabled(w, claim)
            && var w1 := Next(w, claim);
            && w1.executions[slow].running && w1.executions[fast].running
            && Enabled(w1, Finish(slow, Returned(first), now))
            && var w2 := Next(w1, Finish(slow, Returned(first), now));
            && Inspect(w2.records, execution.key, execution.fingerprint) == Replay(first)
            && Enabled(w2, Finish(fast, Returned(second), now))
            && var w3 := Next(w2, Finish(fast, Returned(second), now));
            && Inspect(w3.records, execution.key, execution.fingerprint) == Replay(second)
  {
  }

  /** An overtaken handler that throws deletes the new owner's record, so that a request with any
      fingerprint starts a third execution at once, while the second still runs. */
  lemma SlowFailureFreesTheKey(w: World, slow: Token, fast: Token, third: Token, now: int, fingerprint: Fingerprint)
    requires Inv(w) && w.clock <= now && fast !in w.executions && third !in w.executions && third != fast
    requires slow in w.executions && w.executions[slow].running && w.executions[slow].lockedUntil < now
    ensures var execution := w.executions[slow];
            var w1 := Next(w, Claim(fast, execution.key, execution.fingerprint, now, now));
            && Enabled(w1, Finish(slow, Threw, now))
            && var w2 := Next(w1, Finish(slow, Threw, now));
            && execution.key !in w2.records
            && Enabled(w2, Claim(third, execution.key, fingerprint, now, now))
            && var w3 := Next(w2, Claim(third, execution.key, fingerprint, now, now));
            && w3.executions[fast].running && w3.executions[third].running
            && w3.executions[fast].key == w3.executions[third].key == execution.key
  {
  }

  /** Such a state is reached: the lock of a handler that still runs is over after 30 s. */
  lemma OverlapIsReached(key: Key, fingerprint: Fingerprint)
    ensures var steps := [Claim(1, key, fingerprint, 0, 0)];
            && ValidRun(steps)
            && Reached(steps) == World(map[key := NewRecord(fingerprint, 0)],
                map[1 := Execution(key, fingerprint, 30_000, true)], 0)
            && Enabled(Reached(steps), Claim(2, key, fingerprint, 30_001, 30_001))
            && Takes(Reached(steps).records, key, fingerprint, 30_001)
  {
    var steps := [Claim(1, key, fingerprint, 0, 0)];
    assert steps[..0] == [];
    assert ValidRun([]) && Reached([]) == INITIAL;
    assert ValidRun(steps) && Reached(steps) == Next(INITIAL, steps[0]);
  }
}
