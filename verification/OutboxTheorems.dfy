/** What every run of the outbox guarantees, whatever the interleaving of pods, crashes and expiring leases. */
module OutboxTheorems {
  import opened Wrappers
  import opened DeviceAlerts
  import opened Outbox
  import opened OutboxRules
  import opened OutboxSafety

  predicate AtMostOne(rows: Table, topic: Topic) {
    forall i, j :: i in rows && j in rows && rows[i].topic == rows[j].topic == topic ==> i == j
  }

  // ---------------------------------------------------------------- recoveries follow outages

  /** A recovery is handed to the Slack client only when the outage of the same incident, the only
      notification with that dedupe key, is already SENT. */
  lemma RecoverySendFollowsOutage(steps: seq<Step>, k: nat, token: Token, device: int, incident: Incident)
    requires ValidRun(steps) && k < |steps| && steps[k].action == BeginSend(token)
    requires token in Before(steps, k).workers
    requires Before(steps, k).workers[token].claimed.topic == Recovery(device, incident)
    ensures var rows := Before(steps, k).rows;
            exists id :: && id in rows && rows[id].topic == Outage(device, incident) && rows[id].status == Sent
                         && AtMostOne(rows, Outage(device, incident))
  {
    StepAt(steps, k);
    SentOutageIsUnique(Before(steps, k).rows, Before(steps, k).workers, device, incident);
  }

  lemma SentOutageIsUnique(rows: Table, workers: map<Token, Worker>, device: int, incident: Incident)
    requires RowsInv(rows, workers) && OutageSent(rows, device, incident)
    ensures exists id :: && id in rows && rows[id].topic == Outage(device, incident) && rows[id].status == Sent
                         && AtMostOne(rows, Outage(device, incident))
  {
    var id :| id in rows && rows[id].topic == Outage(device, incident) && rows[id].status == Sent;
  }

  /** A worker that is cleared to send a recovery has checked it, and at that check the newest outage
      of the device was the one of the same incident, and SENT. */
  lemma {:induction false} ClearedWasChecked(steps: seq<Step>, k: nat, token: Token) returns (i: nat)
    requires ValidRun(steps) && k <= |steps| && InPhase(Before(steps, k), token, Cleared)
    requires Before(steps, k).workers[token].claimed.topic.Recovery?
    ensures i < k && steps[i].action.Check? && steps[i].action.token == token
    ensures var topic := Before(steps, k).workers[token].claimed.topic;
            LatestOutageSent(Before(steps, i).rows, topic.device, topic.incident)
    decreases k
  {
    hide Inv, Before, LatestOutageSent, ClaimTx, FinishTx, DetectOne, InsertOnce, FreshIds, CurrentLease;
    BeforeTheRun(steps);
    StepAt(steps, k - 1);
    if steps[k - 1].action.Check? && steps[k - 1].action.token == token {
      i := k - 1;
    } else {
      i := ClearedWasChecked(steps, k - 1, token);
    }
  }

  lemma BeforeTheRun(steps: seq<Step>)
    requires ValidRun(steps)
    ensures Before(steps, 0) == INITIAL
  {
    hide Next, Enabled;
    assert steps[..0] == [];
  }

  /** So every recovery that is handed to the Slack client was checked before, and at that check the
      newest outage of its device was the one of the same incident, and SENT. */
  lemma RecoverySendWasChecked(steps: seq<Step>, k: nat, token: Token)
    requires ValidRun(steps) && k < |steps| && steps[k].action == BeginSend(token)
    requires token in Before(steps, k).workers && Before(steps, k).workers[token].claimed.topic.Recovery?
    ensures exists i :: && 0 <= i < k && steps[i].action.Check? && steps[i].action.token == token
                        && var topic := Before(steps, k).workers[token].claimed.topic;
                           LatestOutageSent(Before(steps, i).rows, topic.device, topic.incident)
  {
    StepAt(steps, k);
    hide Inv, Before, LatestOutageSent, Next;
    var i := ClearedWasChecked(steps, k, token);
  }

  /** A recovery is SENT only when the outage of the same incident is SENT. */
  lemma RecoverySentFollowsOutage(steps: seq<Step>, id: Id)
    requires ValidRun(steps) && id in Reached(steps).rows
    requires Reached(steps).rows[id].status == Sent && Reached(steps).rows[id].topic.Recovery?
    ensures var topic := Reached(steps).rows[id].topic;
            OutageSent(Reached(steps).rows, topic.device, topic.incident)
  {
    RunKeepsInv(steps);
  }

  lemma {:induction false} RowsExtendOverRun(steps: seq<Step>, i: nat, j: nat)
    requires ValidRun(steps) && i <= j <= |steps|
    ensures RowsExtend(Before(steps, i).rows, Before(steps, j).rows)
    decreases j - i
  {
    hide Next, Enabled, Inv, Before;
    if i < j {
      RowsExtendOverRun(steps, i, j - 1);
      StepAt(steps, j - 1);
      StepExtendsRows(Before(steps, j - 1), steps[j - 1]);
      ExtendTransitive(Before(steps, i).rows, Before(steps, j - 1).rows, Before(steps, j).rows);
    }
  }

  /** Every incident that was open at some time of the run has exactly one outage notification, at
      most one recovery, and no recovery without its outage. */
  lemma OneOutagePerIncident(steps: seq<Step>, device: int, incident: Incident)
    requires ValidRun(steps)
    ensures forall k :: 0 <= k <= |steps| && OpenedBy(Before(steps, k), device, incident) ==>
              HasTopic(Reached(steps).rows, Outage(device, incident))
    ensures HasTopic(Reached(steps).rows, Recovery(device, incident)) ==>
        HasTopic(Reached(steps).rows, Outage(device, incident))
    ensures forall topic :: topic in {Outage(device, incident), Recovery(device, incident)} ==>
              AtMostOne(Reached(steps).rows, topic)
  {
    hide Next, Enabled;
    RunKeepsInv(steps);
    RecoveriesHaveOutages(steps);
    hide Inv;
    forall k | 0 <= k <= |steps| && OpenedBy(Before(steps, k), device, incident)
      ensures HasTopic(Reached(steps).rows, Outage(device, incident))
    {
      OpenIsReported(steps, k, device, incident);
      RowsExtendOverRun(steps, k, |steps|);
      assert steps[..|steps|] == steps;
      ExtendKeepsTopic(Before(steps, k).rows, Reached(steps).rows, Outage(device, incident));
    }
  }

  ghost predicate OpenedBy(w: World, device: int, incident: Incident) {
    device in w.alerts && w.alerts[device].incidentId == Some(incident)
  }

  lemma OpenIsReported(steps: seq<Step>, k: nat, device: int, incident: Incident)
    requires ValidRun(steps) && k <= |steps| && OpenedBy(Before(steps, k), device, incident)
    ensures HasTopic(Before(steps, k).rows, Outage(device, incident))
  {
    hide Next, Enabled, RowsInv, LeaseHeld, OwnerHoldsRow;
    Prefix(steps, k);
    RunKeepsInv(steps[..k]);
  }

  ghost predicate OutagesKnown(rows: Table) {
    forall id :: id in rows && rows[id].topic.Recovery? ==>
      HasTopic(rows, Outage(rows[id].topic.device, rows[id].topic.incident))
  }

  lemma ExtendKeepsOutages(a: Table, b: Table)
    requires OutagesKnown(a) && RowsExtend(a, b)
    requires forall id :: id in b && id !in a && b[id].topic.Recovery? ==>
               HasTopic(a, Outage(b[id].topic.device, b[id].topic.incident))
    ensures OutagesKnown(b)
  {
    hide HasTopic;
    forall id | id in b && b[id].topic.Recovery?
      ensures HasTopic(b, Outage(b[id].topic.device, b[id].topic.incident))
    {
      ExtendKeepsTopic(a, b, Outage(b[id].topic.device, b[id].topic.incident));
    }
  }

  /** Only the detection job adds recoveries, for outages that it finds. */
  lemma NewRecoveryHasOutage(w: World, step: Step, id: Id)
    requires Enabled(w, step) && id in Next(w, step).rows && id !in w.rows && Next(w, step).rows[id].topic.Recovery?
    ensures var topic := Next(w, step).rows[id].topic; HasTopic(w.rows, Outage(topic.device, topic.incident))
  {
    hide EvaluateDeviceAlert, IsRelevant, FreshIds, CurrentLease;
  }

  lemma {:induction false} RecoveriesHaveOutages(steps: seq<Step>)
    requires ValidRun(steps)
    ensures OutagesKnown(Reached(steps).rows)
    ensures forall device, incident :: HasTopic(Reached(steps).rows, Recovery(device, incident)) ==>
              HasTopic(Reached(steps).rows, Outage(device, incident))
  {
    hide Next, Enabled, Inv;
    if steps != [] {
      var init, last := steps[..|steps| - 1], steps[|steps| - 1];
      RecoveriesHaveOutages(init);
      RunKeepsInv(init);
      var w := Reached(init);
      StepExtendsRows(w, last);
      forall id | id in Next(w, last).rows && id !in w.rows && Next(w, last).rows[id].topic.Recovery?
        ensures HasTopic(w.rows, Outage(Next(w, last).rows[id].topic.device, Next(w, last).rows[id].topic.incident))
      {
        NewRecoveryHasOutage(w, last, id);
      }
      ExtendKeepsOutages(w.rows, Next(w, last).rows);
    }
  }

  // ---------------------------------------------------------------- settled rows and attempts

  /** SENT, FAILED and CANCELED are absorbing: such a row never changes again, in any column. */
  lemma SettledForever(steps: seq<Step>, i: nat, j: nat, id: Id)
    requires ValidRun(steps) && i <= j <= |steps|
    requires id in Before(steps, i).rows && Before(steps, i).rows[id].status in {Sent, Failed, Canceled}
    ensures id in Before(steps, j).rows && Before(steps, j).rows[id] == Before(steps, i).rows[id]
  {
    RowsExtendOverRun(steps, i, j);
  }

  /** The calls of the Slack client for one notification: each worker makes at most one. */
  function SendersOf(workers: map<Token, Worker>, id: Id): set<Token> {
    set token | token in workers && workers[token].id == id && workers[token].sends > 0
  }

  /** No notification has more than five attempts, and none is passed to the Slack client more often. */
  lemma AtMostFiveSends(steps: seq<Step>, id: Id)
    requires ValidRun(steps) && id in Reached(steps).rows
    ensures var w := Reached(steps);
            && |SendersOf(w.workers, id)| <= w.rows[id].attempts <= MAX_ATTEMPTS
            && forall token :: token in w.workers ==> w.workers[token].sends <= 1
  {
    RunKeepsInv(steps);
    var w := Reached(steps);
    assert SendersOf(w.workers, id) <= ClaimsOf(w.workers, id);
    SubsetSize(SendersOf(w.workers, id), ClaimsOf(w.workers, id));
  }

  // ---------------------------------------------------------------- what claim and finish do

  /** A claim takes the oldest row that is open, due, unexpired, has attempts left, and, if it is a
      recovery, has no unsettled outage. */
  lemma ClaimTakes(rows: Table, lease: Option<Lease>, token: Token, now: int)
    requires ClaimTx(rows, lease, token, now).claimed.Some?
    ensures var id := ClaimTx(rows, lease, token, now).claimed.value;
            && LeaseFree(CurrentLease(lease, now), now)
            && id in rows && rows[id].Open()
            && rows[id].availableAt <= now < rows[id].expiresAt
            && rows[id].attempts < MAX_ATTEMPTS
            && (rows[id].topic.Recovery? ==>
                forall other :: other in rows && rows[other].Open() && now < rows[other].expiresAt ==>
                  rows[other].topic != Outage(rows[id].topic.device, rows[id].topic.incident))
            && (forall other ::
                  (other in rows && other != id && !rows[other].topic.Recovery?
                   && rows[other].Open() && rows[other].availableAt <= now < rows[other].expiresAt)
                  ==> Older(rows, id, other))
  {
    var rows1 := ExpireDue(rows, now);
    var id := ClaimTx(rows, lease, token, now).claimed.value;
    assert IsNext(rows1, id, now);
    forall other | other in rows && other != id && !rows[other].topic.Recovery?
                && rows[other].Open() && rows[other].availableAt <= now < rows[other].expiresAt
      ensures Older(rows, id, other)
    {
      assert Claimable(rows1, other, now);
    }
    if rows[id].topic.Recovery? {
      forall other | other in rows && rows[other].Open() && now < rows[other].expiresAt
        ensures rows[other].topic != Outage(rows[id].topic.device, rows[id].topic.incident)
      {
        assert rows1[other] == rows[other];
      }
    }
  }

  /** The finish of the worker that owns the lease records its outcome in its row and in no other:
      delivered becomes SENT, irrelevant CANCELED, a retryable failure with attempts left PENDING,
      any other failure FAILED. */
  lemma FinishRecords(steps: seq<Step>, k: nat, token: Token, at: int)
    requires ValidRun(steps) && k < |steps| && steps[k].action == Finish(token, at)
    requires Owns(Before(steps, k).lease, token)
    ensures var w, w1 := Before(steps, k), Before(steps, k + 1);
            && token in w.workers && w.workers[token].phase.Answered?
            && var worker := w.workers[token];
            && worker.id in w.rows && w1.rows.Keys == w.rows.Keys
            && (forall id :: id in w.rows && id != worker.id ==> w1.rows[id] == w.rows[id])
            && w1.rows[worker.id].attempts == worker.claimed.attempts > 0
            && match worker.phase.outcome
               case Delivered => w1.rows[worker.id].status == Sent && w1.rows[worker.id].sentAt == Some(at)
               case Irrelevant => w1.rows[worker.id].status == Canceled
               case Error(retryable, _) =>
                 if retryable && worker.claimed.attempts < MAX_ATTEMPTS
                 then && w1.rows[worker.id].status == Pending
                      && w1.rows[worker.id].availableAt
                         == at + RetryDelay(worker.phase.outcome, worker.claimed.attempts)
                 else w1.rows[worker.id].status == Failed
  {
    StepAt(steps, k);
    hide RetryDelay, RecoveriesWait, AttemptsCounted;
  }

  // ---------------------------------------------------------------- fencing

  lemma StepKeepsOvertaken(w: World, step: Step, token: Token)
    requires Enabled(w, step) && token in w.workers
    ensures token in Next(w, step).workers
    ensures w.latest != Some(token) ==> Next(w, step).latest != Some(token)
  {
    hide IsRelevant, ClaimTx, FinishTx, DetectOne, InsertOnce, FreshIds, CurrentLease;
  }

  lemma {:induction false} StaysOvertaken(steps: seq<Step>, j: nat, k: nat, token: Token)
    requires ValidRun(steps) && j <= k <= |steps| && token in Before(steps, j).workers
    ensures token in Before(steps, k).workers
    ensures Before(steps, j).latest != Some(token) ==> Before(steps, k).latest != Some(token)
    decreases k - j
  {
    hide Inv, Next, Enabled, Before;
    if j < k {
      StaysOvertaken(steps, j, k - 1, token);
      StepAt(steps, k - 1);
      StepKeepsOvertaken(Before(steps, k - 1), steps[k - 1], token);
    }
  }

  /** Once a later claim has taken the lease, the finish of an earlier worker changes nothing. */
  lemma OvertakenFinishIsVoid(steps: seq<Step>, i: nat, j: nat, k: nat, token: Token)
    requires ValidRun(steps) && i < j < k < |steps|
    requires steps[i].action.Claim? && steps[i].action.token == token && token in Before(steps, i + 1).workers
    requires steps[j].action.Claim? && TakesLease(Before(steps, j), steps[j].action.now)
    requires steps[k].action.Finish? && steps[k].action.token == token
    ensures Before(steps, k + 1).rows == Before(steps, k).rows && Before(steps, k + 1).lease == Before(steps, k).lease
  {
    hide Inv, ClaimTx, Before;
    StaysOvertaken(steps, i + 1, j, token);
    StepAt(steps, j);
    StaysOvertaken(steps, j + 1, k, token);
    StepAt(steps, k);
    OwnerIsLatest(Before(steps, k), token);
  }

  lemma OwnerIsLatest(w: World, token: Token)
    requires Inv(w)
    ensures Owns(w.lease, token) ==>
      w.latest == Some(token) && token in w.workers && w.lease.value.nextSendAt <= w.workers[token].claimedAt
    ensures token in w.workers ==> w.workers[token].claimed.claimToken == Some(token)
  {
  }

  // ---------------------------------------------------------------- time

  /** A worker that is sending within the lease of its claim. */
  predicate SendsWithinLease(w: World, token: Token) {
    InPhase(w, token, InFlight) && w.clock < w.workers[token].claimedAt + LEASE_MS
  }

  /** If every send in flight is still within the 60 s lease of its claim, at most one is in flight. */
  lemma OneSendInFlight(steps: seq<Step>, a: Token, b: Token)
    requires ValidRun(steps)
    requires SendsWithinLease(Reached(steps), a) && SendsWithinLease(Reached(steps), b)
    ensures a == b
  {
    RunKeepsInv(steps);
    hide RowsInv;
  }

  /** The gap before the next send only moves forward. */
  lemma StepKeepsGap(w: World, step: Step)
    requires Inv(w) && Enabled(w, step) && w.lease.Some?
    ensures Next(w, step).lease.Some? && w.lease.value.nextSendAt <= Next(w, step).lease.value.nextSendAt
  {
    if step.action.Finish? {
      OwnerIsLatest(w, step.action.token);
    }
    hide Inv, IsRelevant, DetectOne, InsertOnce, FreshIds, Finished;
  }

  lemma {:induction false} GapKept(steps: seq<Step>, i: nat, j: nat)
    requires ValidRun(steps) && i <= j <= |steps| && Before(steps, i).lease.Some?
    ensures Before(steps, j).lease.Some?
    ensures Before(steps, i).lease.value.nextSendAt <= Before(steps, j).lease.value.nextSendAt
    decreases j - i
  {
    hide Inv, Next, Enabled, Before;
    if i < j {
      GapKept(steps, i, j - 1);
      StepAt(steps, j - 1);
      StepKeepsGap(Before(steps, j - 1), steps[j - 1]);
    }
  }

  /** After a finish that takes effect, the next send within its own lease starts no sooner than the
      larger of 1100 ms and the retry-after of that failure. */
  lemma SendGap(steps: seq<Step>, i: nat, j: nat, done: Token, at: int, next: Token)
    requires ValidRun(steps) && i < j < |steps|
    requires steps[i].action == Finish(done, at) && Owns(Before(steps, i).lease, done)
    requires done in Before(steps, i).workers && Before(steps, i).workers[done].phase.Answered?
    requires steps[j].action == BeginSend(next) && SendsWithinLease(Before(steps, j + 1), next)
    ensures steps[j].at >= at + Max(SEND_GAP_MS, Before(steps, i).workers[done].phase.outcome.RetryAfter())
  {
    hide RowsInv, Before, Finished;
    StepAt(steps, i);
    StepAt(steps, j);
    GapKept(steps, i + 1, j);
    OwnerIsLatest(Before(steps, i), done);
    OwnerIsLatest(Before(steps, j), next);
  }

  /** A notification whose attempt failed is not claimed again before its backoff has passed:
      the larger of the retry-after and one minute doubled with every attempt. */
  lemma Backoff(steps: seq<Step>, i: nat, j: nat, done: Token, at: int, token: Token, now: int)
    requires ValidRun(steps) && i < j < |steps|
    requires steps[i].action == Finish(done, at) && Owns(Before(steps, i).lease, done)
    requires done in Before(steps, i).workers && Before(steps, i).workers[done].phase.Answered?
    requires steps[j].action == Claim(token, now)
    requires ClaimTx(Before(steps, j).rows, Before(steps, j).lease, token, now).claimed
          == Some(Before(steps, i).workers[done].id)
    ensures var worker := Before(steps, i).workers[done];
            && worker.claimed.attempts > 0
            && now >= at + RetryDelay(worker.phase.outcome, worker.claimed.attempts)
  {
    var worker := Before(steps, i).workers[done];
    FinishRecords(steps, i, done, at);
    RowsExtendOverRun(steps, i + 1, j);
    ClaimTakes(Before(steps, j).rows, Before(steps, j).lease, token, now);
    hide Before, RetryDelay, ClaimTx;
    assert Before(steps, j).rows[worker.id].Open();
    assert Before(steps, i + 1).rows[worker.id].Open();
  }

  /** The backoff of attempts 1 to 4 is 1, 2, 4 and 8 minutes. */
  lemma BackoffValues(outcome: Outcome, attempts: nat)
    requires 1 <= attempts < MAX_ATTEMPTS && outcome.RetryAfter() == 0
    ensures RetryDelay(outcome, attempts) == [60_000, 120_000, 240_000, 480_000][attempts - 1]
  {
    assert PowerOfTwo(1) == 2 && PowerOfTwo(2) == 4 && PowerOfTwo(3) == 8;
  }

  // ---------------------------------------------------------------- what an undisturbed worker achieves

  /** A claim with a free lease hands the row whose turn it is to a new worker that owns the lease. */
  lemma TurnIsClaimed(w: World, token: Token, now: int, id: Id)
    requires Inv(w) && w.clock <= now && token !in w.workers
    requires w.lease.Some? ==> w.lease.value.lockedUntil <= now && w.lease.value.nextSendAt <= now
    requires IsTurnOf(w.rows, id, now) && w.rows[id].attempts < 5
    ensures var step := Step(now, Claim(token, now));
            && Enabled(w, step)
            && var w1 := Next(w, step);
            && Owns(w1.lease, token) && InPhase(w1, token, Claimed)
            && w1.workers[token] == Worker(id, w1.rows[id], now, Claimed, 0)
            && w1.rows[id].status == Sending && w1.rows[id].claimToken == Some(token)
  {
    ClaimedLeaseExactly(w.rows, w.lease, token, now);
    ClaimExactly(w.rows, w.lease, token, now, id);
    assert id in w.rows && now < w.rows[id].expiresAt;
    hide Inv, ClaimTx, IsTurnOf;
  }

  /** Undisturbed, a worker whose notification is relevant sends it once and records the outcome. */
  lemma RelevantIsSent(w: World, token: Token, view: Option<DeviceView>, outcome: Outcome, at: int)
    requires Inv(w) && InPhase(w, token, Claimed) && Owns(w.lease, token) && !outcome.Irrelevant?
    requires w.workers[token].claimedAt <= at && w.clock <= at
    requires IsRelevant(w.rows, w.workers[token].claimed.topic, true, view, w.workers[token].claimedAt)
    ensures var check, begin := Step(w.clock, Check(token, true, view)), Step(w.clock, BeginSend(token));
            var end, finish := Step(w.clock, EndSend(token, outcome)), Step(at, Finish(token, at));
            var id := w.workers[token].id;
            && Enabled(w, check)
            && var w1 := Next(w, check);
            && Enabled(w1, begin)
            && var w2 := Next(w1, begin);
            && Enabled(w2, end)
            && var w3 := Next(w2, end);
            && Enabled(w3, finish)
            && var w4 := Next(w3, finish);
            && w2.workers[token].phase == InFlight && w4.workers[token].sends == 1
            && id in w4.rows && w4.rows.Keys == w.rows.Keys
            && (forall other :: other in w.rows && other != id ==> w4.rows[other] == w.rows[other])
            && w4.rows[id].status == match outcome
                 case Delivered => Sent
                 case Error(retryable, _) =>
                   if retryable && w.workers[token].claimed.attempts < 5 then Pending else Failed
  {
    OwnerHolds(w, token);
    hide Inv, IsRelevant, RetryDelay;
  }

  /** Undisturbed, a worker whose notification is not relevant cancels it without sending. */
  lemma IrrelevantIsCanceled(w: World, token: Token, enabled: bool, view: Option<DeviceView>, at: int)
    requires Inv(w) && InPhase(w, token, Claimed) && Owns(w.lease, token)
    requires w.workers[token].claimedAt <= at && w.clock <= at
    requires !IsRelevant(w.rows, w.workers[token].claimed.topic, enabled, view, w.workers[token].claimedAt)
    ensures var check, finish := Step(w.clock, Check(token, enabled, view)), Step(at, Finish(token, at));
            var id := w.workers[token].id;
            && Enabled(w, check)
            && var w1 := Next(w, check);
            && Enabled(w1, finish)
            && var w2 := Next(w1, finish);
            && !Enabled(w1, Step(w.clock, BeginSend(token))) && w2.workers[token].sends == 0
            && id in w2.rows && w2.rows[id].status == Canceled
            && forall other :: other in w.rows && other != id ==> other in w2.rows && w2.rows[other] == w.rows[other]
  {
    OwnerHolds(w, token);
    hide Inv, IsRelevant, RetryDelay;
  }

  /** A check that fails is like a send that may be repeated, without the send. */
  lemma FailedCheckIsRetried(w: World, token: Token, at: int)
    requires Inv(w) && InPhase(w, token, Claimed) && Owns(w.lease, token)
    requires w.workers[token].claimedAt <= at && w.clock <= at
    ensures var fails, finish := Step(w.clock, CheckFails(token)), Step(at, Finish(token, at));
            var id := w.workers[token].id;
            && Enabled(w, fails)
            && var w1 := Next(w, fails);
            && Enabled(w1, finish)
            && var w2 := Next(w1, finish);
            && w2.workers[token].sends == 0
            && id in w2.rows
            && w2.rows[id].status == (if w.workers[token].claimed.attempts < 5 then Pending else Failed)
            && forall other :: other in w.rows && other != id ==> other in w2.rows && w2.rows[other] == w.rows[other]
  {
    OwnerHolds(w, token);
    hide Inv, IsRelevant, RetryDelay;
  }

  lemma OwnerHolds(w: World, token: Token)
    requires Inv(w) && Owns(w.lease, token) && InPhase(w, token, Claimed)
    ensures var worker := w.workers[token];
            && worker.id in w.rows && w.rows[worker.id].claimToken == Some(token)
            && worker.claimed.claimToken == Some(token) && worker.claimed.attempts > 0 && worker.sends == 0
  {
  }
}
