/** Several pods drain the outbox at once: the steps of their workers, in every interleaving with the
    detection job, with crashes and with lease expiry, and what all of these runs guarantee. */
module OutboxSafety {
  import opened Wrappers
  import opened DeviceAlerts
  import opened Outbox

  // ---------------------------------------------------------------- workers and steps

  /** Where one call of NotificationDispatcher.run stands after its claim. */
  datatype Phase = Claimed | Cleared | InFlight | Answered(outcome: Outcome) | Ended

  /** claimed is the row that the claim returned; sends counts calls of the Slack client. */
  datatype Worker = Worker(id: Id, claimed: Notification, claimedAt: int, phase: Phase, sends: nat)

  /** latest names the worker whose claim took the lease last, if that claim got a row. */
  datatype World = World(
    rows: Table,
    lease: Option<Lease>,
    alerts: map<int, AlertState>,
    workers: map<Token, Worker>,
    latest: Option<Token>,
    clock: int)

  const INITIAL := World(map[], None, map[], map[], None, 0)

  datatype Action =
    | Claim(token: Token, now: int)
    | Check(token: Token, enabled: bool, view: Option<DeviceView>)
    | CheckFails(token: Token)
    | BeginSend(token: Token)
    | EndSend(token: Token, outcome: Outcome)
    | Finish(token: Token, finishedAt: int)
    | Crash(token: Token)
    | Detect(device: Device, ids: NewIds, now: int)
    | Remind(slot: int, id: Id, now: int)

  /** An action and the moment it takes effect. Clock readings inside it may be older. */
  datatype Step = Step(at: int, action: Action)

  predicate InPhase(w: World, token: Token, phase: Phase) {
    token in w.workers && w.workers[token].phase == phase
  }

  predicate Enabled(w: World, step: Step) {
    && w.clock <= step.at
    && match step.action
       case Claim(token, now) => now <= step.at && token !in w.workers
       case Check(token, _, _) => InPhase(w, token, Claimed)
       case CheckFails(token) => InPhase(w, token, Claimed)
       case BeginSend(token) => InPhase(w, token, Cleared)
       case EndSend(token, outcome) => InPhase(w, token, InFlight) && !outcome.Irrelevant?
       case Finish(token, finishedAt) =>
         && token in w.workers && w.workers[token].phase.Answered?
         && w.workers[token].claimedAt <= finishedAt <= step.at
         && w.workers[token].claimed.claimToken.Some? && w.workers[token].claimed.attempts > 0
       case Crash(token) => token in w.workers && !w.workers[token].phase.Ended?
       case Detect(device, ids, now) => now <= step.at && FreshIds(Detection(w.rows, w.alerts), ids)
       case Remind(slot, id, now) => now <= step.at && id !in w.rows
  }

  function Move(w: World, token: Token, phase: Phase): World
    requires token in w.workers
  {
    w.(workers := w.workers[token := w.workers[token].(phase := phase)])
  }

  /** Whether the claim got past the lease. */
  predicate TakesLease(w: World, now: int) { LeaseFree(CurrentLease(w.lease, now), now) }

  ghost function AfterClaim(w: World, token: Token, now: int): World
  {
    var result := ClaimTx(w.rows, w.lease, token, now);
    var w1 := w.(rows := result.rows, lease := result.lease,
                 latest := if !TakesLease(w, now) then w.latest
                           else if result.claimed.Some? then Some(token) else None);
    if result.claimed.Some? && result.claimed.value in result.rows then
      var id := result.claimed.value;
      w1.(workers := w.workers[token := Worker(id, result.rows[id], now, Claimed, 0)])
    else w1
  }

  function AfterCheck(w: World, token: Token, enabled: bool, view: Option<DeviceView>): World
    requires token in w.workers
  {
    var worker := w.workers[token];
    Move(w, token,
         if IsRelevant(w.rows, worker.claimed.topic, enabled, view, worker.claimedAt)
         then Cleared else Answered(Irrelevant))
  }

  function AfterBeginSend(w: World, token: Token): World
    requires token in w.workers
  {
    w.(workers := w.workers[token := w.workers[token].(phase := InFlight, sends := w.workers[token].sends + 1)])
  }

  function AfterFinish(w: World, token: Token, at: int): World
    requires token in w.workers && w.workers[token].phase.Answered?
    requires w.workers[token].claimed.claimToken.Some? && w.workers[token].claimed.attempts > 0
  {
    var worker := w.workers[token];
    var (rows, lease) := FinishTx(w.rows, w.lease, worker.id, worker.claimed, worker.phase.outcome, at);
    Move(w.(rows := rows, lease := lease), token, Ended)
  }

  function AfterDetect(w: World, device: Device, ids: NewIds, now: int): World {
    var d := DetectOne(Detection(w.rows, w.alerts), device, ids, now);
    w.(rows := d.rows, alerts := d.alerts)
  }

  ghost function Next(w: World, step: Step): World
    requires Enabled(w, step)
  {
    var w1 := match step.action
      case Claim(token, now) => AfterClaim(w, token, now)
      case Check(token, enabled, view) => AfterCheck(w, token, enabled, view)
      case CheckFails(token) => Move(w, token, Answered(Error(true, 0)))
      case BeginSend(token) => AfterBeginSend(w, token)
      case EndSend(token, outcome) => Move(w, token, Answered(outcome))
      case Finish(token, finishedAt) => AfterFinish(w, token, finishedAt)
      case Crash(token) => Move(w, token, Ended)
      case Detect(device, ids, now) => AfterDetect(w, device, ids, now)
      case Remind(slot, id, now) => w.(rows := InsertOnce(w.rows, id, Reminder(slot), now));
    w1.(clock := step.at)
  }

  // ---------------------------------------------------------------- the invariant

  predicate OutageSent(rows: Table, device: int, incident: Incident) {
    exists id :: id in rows && rows[id].topic == Outage(device, incident) && rows[id].status == Sent
  }

  ghost predicate TopicsUnique(rows: Table) {
    forall i, j :: i in rows && j in rows && rows[i].topic == rows[j].topic ==> i == j
  }

  /** A token on a row belongs to the worker that claimed exactly this row as it is now. */
  ghost predicate TokensMatch(rows: Table, workers: map<Token, Worker>) {
    forall id :: id in rows ==>
      && (rows[id].status == Sending <==> rows[id].claimToken.Some?)
      && (rows[id].claimToken.Some? ==>
            && rows[id].claimToken.value in workers
            && workers[rows[id].claimToken.value].id == id
            && workers[rows[id].claimToken.value].claimed == rows[id]
            && rows[id].availableAt <= workers[rows[id].claimToken.value].claimedAt)
  }

  function ClaimsOf(workers: map<Token, Worker>, id: Id): set<Token> {
    set token | token in workers && workers[token].id == id
  }

  /** The attempts column counts the claims of the row, and never exceeds the limit. */
  ghost predicate AttemptsCounted(rows: Table, workers: map<Token, Worker>) {
    && (forall id :: id in rows ==> rows[id].attempts == |ClaimsOf(workers, id)| <= MAX_ATTEMPTS)
    && (forall token :: token in workers ==> workers[token].id in rows)
  }

  ghost predicate WorkerRecords(rows: Table, workers: map<Token, Worker>) {
    forall token :: token in workers ==>
      && workers[token].id in rows
      && workers[token].claimed.topic == rows[workers[token].id].topic
      && workers[token].claimed.claimToken == Some(token)
      && workers[token].claimed.attempts > 0
      && workers[token].sends <= 1
      && (workers[token].phase in {Claimed, Cleared} ==> workers[token].sends == 0)
  }

  /** The worker may send, is sending, or has sent successfully. */
  predicate Passed(worker: Worker) { worker.phase in {Cleared, InFlight, Answered(Delivered)} }

  ghost predicate RecoveriesWait(rows: Table, workers: map<Token, Worker>) {
    && (forall token :: token in workers && Passed(workers[token]) && workers[token].claimed.topic.Recovery? ==>
          OutageSent(rows, workers[token].claimed.topic.device, workers[token].claimed.topic.incident))
    && (forall id :: id in rows && rows[id].topic.Recovery? && rows[id].status == Sent ==>
          OutageSent(rows, rows[id].topic.device, rows[id].topic.incident))
  }

  /** The lease belongs to the latest claim, lasts LEASE_MS, and was taken after the send gap.
      Any other worker that may still act has outlived its own lease. */
  ghost predicate LeaseHeld(w: World) {
    && (w.lease.Some? && w.lease.value.claimToken.Some? ==>
          var token := w.lease.value.claimToken.value;
          && token in w.workers && w.latest == Some(token)
          && w.lease.value.lockedUntil == w.workers[token].claimedAt + LEASE_MS
          && w.lease.value.nextSendAt <= w.workers[token].claimedAt)
    && (forall token :: token in w.workers && !w.workers[token].phase.Ended? ==>
          Owns(w.lease, token) || w.workers[token].claimedAt + LEASE_MS <= w.clock)
    && (forall token :: token in w.workers ==> w.workers[token].claimedAt <= w.clock)
    && (w.latest.Some? ==> w.latest.value in w.workers)
  }

  /** Every open incident has its outage notification. */
  ghost predicate IncidentsReported(rows: Table, alerts: map<int, AlertState>) {
    forall device :: device in alerts && alerts[device].incidentId.Some? ==>
      HasTopic(rows, Outage(device, alerts[device].incidentId.value))
  }

  ghost predicate RowsInv(rows: Table, workers: map<Token, Worker>) {
    && TopicsUnique(rows)
    && TokensMatch(rows, workers)
    && AttemptsCounted(rows, workers)
    && WorkerRecords(rows, workers)
    && RecoveriesWait(rows, workers)
  }

  /** The owner of the lease still holds the row it claimed. */
  ghost predicate OwnerHoldsRow(w: World) {
    w.lease.Some? && w.lease.value.claimToken.Some? ==>
      var token := w.lease.value.claimToken.value;
      && token in w.workers && w.workers[token].id in w.rows
      && w.rows[w.workers[token].id].claimToken == Some(token)
  }

  ghost predicate Inv(w: World) {
    && RowsInv(w.rows, w.workers)
    && LeaseHeld(w)
    && OwnerHoldsRow(w)
    && IncidentsReported(w.rows, w.alerts)
  }

  // ---------------------------------------------------------------- how rows may change

  /** Rows stay, keep their identity, and are frozen once they are SENT, FAILED or CANCELED. */
  ghost predicate RowsExtend(a: Table, b: Table) {
    forall id :: id in a ==>
      && id in b
      && b[id].topic == a[id].topic && b[id].createdAt == a[id].createdAt && b[id].expiresAt == a[id].expiresAt
      && a[id].attempts <= b[id].attempts
      && a[id].availableAt <= b[id].availableAt
      && (!a[id].Open() ==> b[id] == a[id])
  }

  lemma ExtendKeepsOutageSent(a: Table, b: Table, device: int, incident: Incident)
    requires RowsExtend(a, b) && OutageSent(a, device, incident)
    ensures OutageSent(b, device, incident)
  {
    var id :| id in a && a[id].topic == Outage(device, incident) && a[id].status == Sent;
    assert b[id] == a[id];
  }

  lemma ExtendKeepsTopic(a: Table, b: Table, topic: Topic)
    requires RowsExtend(a, b) && HasTopic(a, topic)
    ensures HasTopic(b, topic)
  {
    var id :| id in a && a[id].topic == topic;
    assert b[id].topic == topic;
  }

  lemma ExtendTransitive(a: Table, b: Table, c: Table)
    requires RowsExtend(a, b) && RowsExtend(b, c)
    ensures RowsExtend(a, c)
  {
  }

  lemma ClaimExtends(rows: Table, lease: Option<Lease>, token: Token, now: int)
    ensures RowsExtend(rows, ClaimTx(rows, lease, token, now).rows)
  {
    var rows1 := ExpireDue(rows, now);
    assert RowsExtend(rows, rows1);
    var next := NextToSend(rows1, now);
    if next.Some? {
      assert rows1[next.value].Open();
    }
  }

  lemma FinishExtends(w: World, token: Token, at: int)
    requires TokensMatch(w.rows, w.workers) && token in w.workers && w.workers[token].phase.Answered?
    requires w.workers[token].claimed.claimToken.Some? && w.workers[token].claimed.attempts > 0
    requires w.workers[token].claimedAt <= at && w.workers[token].claimed.claimToken == Some(token)
    ensures RowsExtend(w.rows, AfterFinish(w, token, at).rows)
  {
  }

  lemma DetectExtends(d: Detection, device: Device, ids: NewIds, now: int)
    requires FreshIds(d, ids)
    ensures RowsExtend(d.rows, DetectOne(d, device, ids, now).rows)
  {
    hide EvaluateDeviceAlert, OutageReported, HasTopic;
  }

  /** No step of any worker or job changes a settled row, or the identity of any row. */
  lemma StepExtendsRows(w: World, step: Step)
    requires Inv(w) && Enabled(w, step)
    ensures RowsExtend(w.rows, Next(w, step).rows)
  {
    hide Inv;
    InvKeepsRecords(w);
    MoveExtendsRows(w, step);
  }

  lemma InvKeepsRecords(w: World)
    requires Inv(w)
    ensures TokensMatch(w.rows, w.workers)
    ensures forall token :: token in w.workers ==> w.workers[token].claimed.claimToken == Some(token)
  {
  }

  lemma MoveExtendsRows(w: World, step: Step)
    requires Enabled(w, step) && TokensMatch(w.rows, w.workers)
    requires forall token :: token in w.workers ==> w.workers[token].claimed.claimToken == Some(token)
    ensures RowsExtend(w.rows, Next(w, step).rows)
  {
    hide IsRelevant, ClaimTx, FinishTx, DetectOne, FreshIds, HasTopic, TokensMatch;
    match step.action
    case Claim(token, now) => ClaimExtends(w.rows, w.lease, token, now);
    case Finish(token, finishedAt) => FinishExtends(w, token, finishedAt);
    case Detect(device, ids, now) => DetectExtends(Detection(w.rows, w.alerts), device, ids, now);
    case _ =>
  }

  // ---------------------------------------------------------------- the invariant is kept

  /** A new notification with an unused dedupe key. */
  predicate InsertsAt(a: Table, b: Table, topic: Topic, id: Id, now: int) {
    id !in a && !HasTopic(a, topic) && b == a[id := NewNotification(topic, now)]
  }

  ghost predicate IsInsert(a: Table, b: Table, topic: Topic) {
    exists id, now :: InsertsAt(a, b, topic, id, now)
  }

  lemma InsertKeeps(a: Table, b: Table, topic: Topic, workers: map<Token, Worker>)
    requires RowsInv(a, workers) && IsInsert(a, b, topic)
    ensures RowsInv(b, workers) && RowsExtend(a, b) && HasTopic(b, topic)
  {
    var id, now :| InsertsAt(a, b, topic, id, now);
    assert RowsExtend(a, b);
    assert b[id].topic == topic;
    assert TopicsUnique(b) by {
      assert forall other :: other in a ==> a[other].topic != topic;
    }
    assert AttemptsCounted(b, workers) by {
      assert forall token :: token in workers ==> workers[token].id in a;
      assert ClaimsOf(workers, id) == {};
    }
    WaitingKept(a, b, workers);
  }

  /** Growing the table keeps what was known about outages that are already sent. */
  lemma WaitingKept(a: Table, b: Table, workers: map<Token, Worker>)
    requires RecoveriesWait(a, workers) && RowsExtend(a, b)
    requires forall id :: id in b && b[id].topic.Recovery? && b[id].status == Sent ==>
               id in a && a[id].status == Sent
    ensures RecoveriesWait(b, workers)
  {
    forall token | token in workers && Passed(workers[token]) && workers[token].claimed.topic.Recovery?
      ensures OutageSent(b, workers[token].claimed.topic.device, workers[token].claimed.topic.incident)
    {
      ExtendKeepsOutageSent(a, b, workers[token].claimed.topic.device, workers[token].claimed.topic.incident);
    }
    forall id | id in b && b[id].topic.Recovery? && b[id].status == Sent
      ensures OutageSent(b, b[id].topic.device, b[id].topic.incident)
    {
      ExtendKeepsOutageSent(a, b, a[id].topic.device, a[id].topic.incident);
    }
  }

  /** Detection inserts at most one recovery, and one outage if it raises an alert. */
  lemma DetectShape(d: Detection, device: Device, ids: NewIds, now: int) returns (rows1: Table)
    requires FreshIds(d, ids)
    ensures rows1 == d.rows || exists incident :: IsInsert(d.rows, rows1, Recovery(device.id, incident))
    ensures if EvaluateDeviceAlert(device, PreviousState(d.alerts, device.id), now).shouldAlert
            then IsInsert(rows1, DetectOne(d, device, ids, now).rows, Outage(device.id, ids.incident))
            else DetectOne(d, device, ids, now).rows == rows1
  {
    hide OutageReported, EvaluateDeviceAlert;
    var result := EvaluateDeviceAlert(device, PreviousState(d.alerts, device.id), now);
    rows1 := match result.recoveredIncidentId
      case None => d.rows
      case Some(incident) =>
        if OutageReported(d.rows, device.id, incident)
        then InsertOnce(d.rows, ids.recovery, Recovery(device.id, incident), now) else d.rows;
    if rows1 != d.rows {
      assert InsertsAt(d.rows, rows1, Recovery(device.id, result.recoveredIncidentId.value), ids.recovery, now);
    }
    if result.shouldAlert {
      assert !HasTopic(rows1, Outage(device.id, ids.incident));
      assert InsertsAt(rows1, DetectOne(d, device, ids, now).rows, Outage(device.id, ids.incident), ids.outage, now);
    }
  }

  lemma DetectKeeps(w: World, device: Device, ids: NewIds, now: int)
    requires Inv(w) && FreshIds(Detection(w.rows, w.alerts), ids)
    ensures RowsInv(AfterDetect(w, device, ids, now).rows, w.workers)
    ensures IncidentsReported(AfterDetect(w, device, ids, now).rows, AfterDetect(w, device, ids, now).alerts)
  {
    var d := Detection(w.rows, w.alerts);
    var result := EvaluateDeviceAlert(device, PreviousState(d.alerts, device.id), now);
    var rows1 := DetectShape(d, device, ids, now);
    var d2 := DetectOne(d, device, ids, now);
    assert d2.alerts == d.alerts[device.id := StoredState(result, ids.incident)];
    assert result.state.incidentId.Some? ==>
      && PreviousState(d.alerts, device.id).Some?
      && result.state.incidentId == PreviousState(d.alerts, device.id).value.incidentId;
    hide DetectOne, RowsInv, FreshIds, EvaluateDeviceAlert;
    if rows1 != d.rows {
      var incident :| IsInsert(d.rows, rows1, Recovery(device.id, incident));
      InsertKeeps(d.rows, rows1, Recovery(device.id, incident), w.workers);
    }
    if result.shouldAlert {
      InsertKeeps(rows1, d2.rows, Outage(device.id, ids.incident), w.workers);
    }
    assert RowsExtend(d.rows, d2.rows);
    forall other | other in d2.alerts && d2.alerts[other].incidentId.Some?
      ensures HasTopic(d2.rows, Outage(other, d2.alerts[other].incidentId.value))
    {
      if !(other == device.id && result.shouldAlert) {
        ExtendKeepsTopic(d.rows, d2.rows, Outage(other, d2.alerts[other].incidentId.value));
      }
    }
  }

  lemma ClaimKeepsKeys(rows: Table, lease: Option<Lease>, token: Token, now: int)
    ensures ClaimTx(rows, lease, token, now).rows.Keys == rows.Keys
    ensures var result := ClaimTx(rows, lease, token, now);
            result.claimed.Some? ==> result.claimed.value in rows
  {
    assert ExpireDue(rows, now).Keys == rows.Keys;
  }

  lemma SameTopicsUnique(a: Table, b: Table)
    requires TopicsUnique(a) && RowsExtend(a, b) && b.Keys == a.Keys
    ensures TopicsUnique(b)
  {
    assert forall id :: id in b ==> id in a;
  }

  /** Settling open rows without a token keeps the row invariants. */
  lemma ExpireKeeps(rows: Table, workers: map<Token, Worker>, now: int)
    requires RowsInv(rows, workers)
    ensures RowsInv(ExpireDue(rows, now), workers)
  {
    var rows1 := ExpireDue(rows, now);
    assert rows1.Keys == rows.Keys && RowsExtend(rows, rows1);
    SameTopicsUnique(rows, rows1);
    WaitingKept(rows, rows1, workers);
  }

  lemma ExhaustKeeps(rows: Table, workers: map<Token, Worker>, id: Id)
    requires RowsInv(rows, workers) && id in rows && rows[id].Open()
    ensures RowsInv(rows[id := rows[id].(status := Failed, claimToken := None, lastError := Some(Exhausted))], workers)
  {
    var rows1 := rows[id := rows[id].(status := Failed, claimToken := None, lastError := Some(Exhausted))];
    assert rows1.Keys == rows.Keys && RowsExtend(rows, rows1);
    SameTopicsUnique(rows, rows1);
    WaitingKept(rows, rows1, workers);
  }

  function ClaimedRow(row: Notification, token: Token): Notification {
    row.(status := Sending, claimToken := Some(token), attempts := row.attempts + 1)
  }

  lemma TakeCounts(rows: Table, workers: map<Token, Worker>, id: Id, token: Token, worker: Worker)
    requires AttemptsCounted(rows, workers) && id in rows && rows[id].attempts < MAX_ATTEMPTS
    requires token !in workers && worker.id == id
    ensures AttemptsCounted(rows[id := ClaimedRow(rows[id], token)], workers[token := worker])
  {
    var rows1, workers1 := rows[id := ClaimedRow(rows[id], token)], workers[token := worker];
    forall other | other in rows1
      ensures rows1[other].attempts == |ClaimsOf(workers1, other)| <= MAX_ATTEMPTS
    {
      if other == id {
        assert ClaimsOf(workers1, id) == ClaimsOf(workers, id) + {token};
      } else {
        assert ClaimsOf(workers1, other) == ClaimsOf(workers, other);
      }
    }
  }

  lemma TakeKeeps(rows: Table, workers: map<Token, Worker>, id: Id, token: Token, now: int)
    requires RowsInv(rows, workers) && id in rows && rows[id].Open() && rows[id].attempts < MAX_ATTEMPTS
    requires token !in workers && rows[id].availableAt <= now
    ensures var row := ClaimedRow(rows[id], token);
            RowsInv(rows[id := row], workers[token := Worker(id, row, now, Claimed, 0)])
  {
    var row := ClaimedRow(rows[id], token);
    var rows1, workers1 := rows[id := row], workers[token := Worker(id, row, now, Claimed, 0)];
    assert rows1.Keys == rows.Keys && RowsExtend(rows, rows1);
    SameTopicsUnique(rows, rows1);
    WaitingKept(rows, rows1, workers);
    assert RecoveriesWait(rows1, workers1);
    TakeCounts(rows, workers, id, token, Worker(id, row, now, Claimed, 0));
  }

  lemma ClaimKeeps(w: World, token: Token, now: int)
    requires Inv(w) && token !in w.workers
    ensures RowsInv(AfterClaim(w, token, now).rows, AfterClaim(w, token, now).workers)
  {
    hide RowsInv, RowsExtend;
    ClaimKeepsKeys(w.rows, w.lease, token, now);
    if TakesLease(w, now) {
      var rows1 := ExpireDue(w.rows, now);
      ExpireKeeps(w.rows, w.workers, now);
      var next := NextToSend(rows1, now);
      if next.Some? {
        if rows1[next.value].attempts >= MAX_ATTEMPTS {
          ExhaustKeeps(rows1, w.workers, next.value);
        } else {
          TakeKeeps(rows1, w.workers, next.value, token, now);
        }
      }
    }
  }

  /** Progress of one worker that leaves its claim alone. */
  lemma PhaseKeeps(rows: Table, workers: map<Token, Worker>, token: Token, worker: Worker)
    requires RowsInv(rows, workers) && token in workers
    requires worker.id == workers[token].id && worker.claimed == workers[token].claimed
    requires worker.claimedAt == workers[token].claimedAt
    requires worker.sends <= 1 && (worker.phase in {Claimed, Cleared} ==> worker.sends == 0)
    requires Passed(worker) && worker.claimed.topic.Recovery? ==>
               OutageSent(rows, worker.claimed.topic.device, worker.claimed.topic.incident)
    ensures RowsInv(rows, workers[token := worker])
  {
    var workers1 := workers[token := worker];
    forall id | id in rows
      ensures ClaimsOf(workers1, id) == ClaimsOf(workers, id)
    {
    }
    assert RecoveriesWait(rows, workers1);
  }

  /** Taking the token off one row. */
  lemma ReleaseKeeps(rows: Table, workers: map<Token, Worker>, id: Id, row: Notification)
    requires TokensMatch(rows, workers) && AttemptsCounted(rows, workers) && WorkerRecords(rows, workers) && id in rows
    requires row.topic == rows[id].topic && row.attempts == rows[id].attempts
    requires row.claimToken.None? && row.status != Sending
    ensures var rows1 := rows[id := row];
            TokensMatch(rows1, workers) && AttemptsCounted(rows1, workers) && WorkerRecords(rows1, workers)
  {
  }

  lemma FinishKeepsRows(w: World, token: Token, at: int)
    requires Inv(w) && token in w.workers && w.workers[token].phase.Answered?
    requires w.workers[token].claimed.claimToken == Some(token) && w.workers[token].claimed.attempts > 0
    requires w.workers[token].claimedAt <= at
    ensures RowsInv(AfterFinish(w, token, at).rows, w.workers)
  {
    var worker := w.workers[token];
    var rows1 := AfterFinish(w, token, at).rows;
    FinishExtends(w, token, at);
    assert FinalStatus(worker.phase.outcome, worker.claimed.attempts) == Sent ==> Passed(worker);
    if rows1 != w.rows {
      var row := Finished(w.rows[worker.id], worker.claimed, worker.phase.outcome, at);
      assert rows1 == w.rows[worker.id := row] && rows1.Keys == w.rows.Keys;
      hide FinishTx, RetryDelay, RowsExtend, LeaseHeld, OwnerHoldsRow;
      ReleaseKeeps(w.rows, w.workers, worker.id, row);
      SameTopicsUnique(w.rows, rows1);
      hide TokensMatch, AttemptsCounted, WorkerRecords;
      SentRecoveriesKept(w, rows1, token);
    }
  }

  lemma FinishKeeps(w: World, token: Token, at: int)
    requires Inv(w) && token in w.workers && w.workers[token].phase.Answered?
    requires w.workers[token].claimedAt <= at
    ensures var worker := w.workers[token];
            && worker.claimed.claimToken.Some? && worker.claimed.attempts > 0
            && RowsInv(AfterFinish(w, token, at).rows, AfterFinish(w, token, at).workers)
  {
    var worker := w.workers[token];
    assert worker.claimed.claimToken == Some(token) && worker.claimed.attempts > 0 && worker.sends <= 1;
    hide RowsInv, Inv, FinishTx;
    FinishKeepsRows(w, token, at);
    PhaseKeeps(AfterFinish(w, token, at).rows, w.workers, token, worker.(phase := Ended));
  }

  /** A recovery becomes SENT only through a worker that passed the relevance check. */
  lemma SentRecoveriesKept(w: World, rows1: Table, token: Token)
    requires Inv(w) && RowsExtend(w.rows, rows1) && rows1.Keys == w.rows.Keys && token in w.workers
    requires forall id :: id in rows1 && rows1[id] != w.rows[id] && rows1[id].status == Sent ==>
               id == w.workers[token].id && Passed(w.workers[token])
    ensures RecoveriesWait(rows1, w.workers)
  {
    forall token | token in w.workers && Passed(w.workers[token]) && w.workers[token].claimed.topic.Recovery?
      ensures OutageSent(rows1, w.workers[token].claimed.topic.device, w.workers[token].claimed.topic.incident)
    {
      var topic := w.workers[token].claimed.topic;
      ExtendKeepsOutageSent(w.rows, rows1, topic.device, topic.incident);
    }
    forall id | id in rows1 && rows1[id].topic.Recovery? && rows1[id].status == Sent
      ensures OutageSent(rows1, rows1[id].topic.device, rows1[id].topic.incident)
    {
      var topic := rows1[id].topic;
      if rows1[id] != w.rows[id] {
        assert w.workers[token].claimed.topic == topic;
      }
      assert OutageSent(w.rows, topic.device, topic.incident);
      ExtendKeepsOutageSent(w.rows, rows1, topic.device, topic.incident);
    }
  }

  lemma ClaimKeepsLease(w: World, token: Token, now: int, at: int)
    requires Inv(w) && token !in w.workers && now <= at && w.clock <= at
    ensures LeaseHeld(AfterClaim(w, token, now).(clock := at)) && OwnerHoldsRow(AfterClaim(w, token, now))
  {
    hide RowsInv, IncidentsReported;
    ClaimKeepsKeys(w.rows, w.lease, token, now);
  }

  lemma FinishKeepsLease(w: World, token: Token, at: int, clock: int)
    requires Inv(w) && token in w.workers && w.workers[token].phase.Answered?
    requires w.workers[token].claimed.claimToken == Some(token) && w.workers[token].claimed.attempts > 0
    requires w.workers[token].claimedAt <= at <= clock && w.clock <= clock
    ensures LeaseHeld(AfterFinish(w, token, at).(clock := clock)) && OwnerHoldsRow(AfterFinish(w, token, at))
  {
    hide RowsInv, IncidentsReported, Finished;
  }

  /** A recovery passes the relevance check only when the newest outage of its device is the one of
      its incident and has been sent. */
  lemma CheckFindsLatestOutage(w: World, token: Token, enabled: bool, view: Option<DeviceView>)
    requires token in w.workers && w.workers[token].claimed.topic.Recovery?
    requires AfterCheck(w, token, enabled, view).workers[token].phase == Cleared
    ensures var topic := w.workers[token].claimed.topic;
            && LatestOutageSent(w.rows, topic.device, topic.incident)
            && OutageSent(w.rows, topic.device, topic.incident)
  {
    var topic := w.workers[token].claimed.topic;
    var id :| id in w.rows && IsLatestOutage(w.rows, topic.device, id)
           && w.rows[id].topic.incident == topic.incident && w.rows[id].status == Sent;
    assert w.rows[id].topic == Outage(topic.device, topic.incident);
  }

  lemma ClaimStepKeeps(w: World, step: Step)
    requires Inv(w) && Enabled(w, step) && step.action.Claim?
    ensures Inv(Next(w, step))
  {
    hide RowsInv, RowsExtend, ClaimTx;
    var Claim(token, now) := step.action;
    ClaimKeeps(w, token, now);
    ClaimKeepsLease(w, token, now, step.at);
    ClaimExtends(w.rows, w.lease, token, now);
    IncidentsKept(w.rows, Next(w, step).rows, w.alerts);
    hide LeaseHeld, IncidentsReported, AfterClaim;
  }

  lemma FinishStepKeeps(w: World, step: Step)
    requires Inv(w) && Enabled(w, step) && step.action.Finish?
    ensures Inv(Next(w, step))
  {
    var Finish(token, finishedAt) := step.action;
    assert w.workers[token].claimed.claimToken == Some(token) && TokensMatch(w.rows, w.workers);
    hide RowsInv, RowsExtend, FinishTx, LeaseHeld;
    FinishKeeps(w, token, finishedAt);
    FinishKeepsLease(w, token, finishedAt, step.at);
    FinishExtends(w, token, finishedAt);
    IncidentsKept(w.rows, Next(w, step).rows, w.alerts);
    hide IncidentsReported;
  }

  lemma InsertsOnly(w: World, step: Step)
    requires Enabled(w, step) && (step.action.Detect? || step.action.Remind?)
    ensures forall id :: id in w.rows ==> id in Next(w, step).rows && Next(w, step).rows[id] == w.rows[id]
  {
    hide EvaluateDeviceAlert, OutageReported, HasTopic;
  }

  lemma InsertStepKeeps(w: World, step: Step)
    requires Inv(w) && Enabled(w, step) && (step.action.Detect? || step.action.Remind?)
    ensures Inv(Next(w, step))
  {
    hide RowsInv, RowsExtend, DetectOne, FreshIds, HasTopic;
    var w1 := Next(w, step);
    assert LeaseHeld(w1);
    InsertsOnly(w, step);
    assert OwnerHoldsRow(w1);
    hide LeaseHeld, OwnerHoldsRow;
    if step.action.Detect? {
      DetectKeeps(w, step.action.device, step.action.ids, step.action.now);
    } else if w1.rows != w.rows {
      var Remind(slot, id, now) := step.action;
      assert InsertsAt(w.rows, w1.rows, Reminder(slot), id, now);
      InsertKeeps(w.rows, w1.rows, Reminder(slot), w.workers);
      IncidentsKept(w.rows, w1.rows, w.alerts);
    }
  }

  lemma WorkerFacts(w: World, token: Token)
    requires Inv(w) && token in w.workers
    ensures var worker := w.workers[token];
            && worker.sends <= 1 && (worker.phase in {Claimed, Cleared} ==> worker.sends == 0)
            && (Passed(worker) && worker.claimed.topic.Recovery? ==>
                  OutageSent(w.rows, worker.claimed.topic.device, worker.claimed.topic.incident))
  {
    hide OutageSent, LeaseHeld, TokensMatch, AttemptsCounted;
  }

  /** Progress of one worker that leaves its claim alone, as a step of the world. */
  lemma WorkerKeeps(w: World, token: Token, worker: Worker, at: int)
    requires Inv(w) && token in w.workers && w.clock <= at && !w.workers[token].phase.Ended?
    requires worker.id == w.workers[token].id && worker.claimed == w.workers[token].claimed
    requires worker.claimedAt == w.workers[token].claimedAt
    requires worker.sends <= 1 && (worker.phase in {Claimed, Cleared} ==> worker.sends == 0)
    requires Passed(worker) && worker.claimed.topic.Recovery? ==>
               OutageSent(w.rows, worker.claimed.topic.device, worker.claimed.topic.incident)
    ensures Inv(w.(workers := w.workers[token := worker], clock := at))
  {
    hide RowsInv, OutageSent;
    PhaseKeeps(w.rows, w.workers, token, worker);
  }

  lemma WorkerStepKeeps(w: World, step: Step, token: Token)
    requires Inv(w) && Enabled(w, step) && token in w.workers
    requires step.action in {CheckFails(token), BeginSend(token), Crash(token)}
          || (step.action.Check? && step.action.token == token) || (step.action.EndSend? && step.action.token == token)
    ensures Inv(Next(w, step))
  {
    var worker := Next(w, step).workers[token];
    if step.action.Check? && worker.phase == Cleared && w.workers[token].claimed.topic.Recovery? {
      CheckFindsLatestOutage(w, token, step.action.enabled, step.action.view);
    }
    WorkerFacts(w, token);
    hide Inv, IsRelevant, OutageSent;
    WorkerKeeps(w, token, worker, step.at);
    assert Next(w, step) == w.(workers := w.workers[token := worker], clock := step.at);
  }

  /** Every step of every worker and job keeps the invariant. */
  lemma StepKeepsInv(w: World, step: Step)
    requires Inv(w) && Enabled(w, step)
    ensures Inv(Next(w, step))
  {
    hide Inv, Next;
    match step.action
    case Claim(_, _) => ClaimStepKeeps(w, step);
    case Finish(_, _) => FinishStepKeeps(w, step);
    case Detect(_, _, _) => InsertStepKeeps(w, step);
    case Remind(_, _, _) => InsertStepKeeps(w, step);
    case Check(token, _, _) => WorkerStepKeeps(w, step, token);
    case CheckFails(token) => WorkerStepKeeps(w, step, token);
    case BeginSend(token) => WorkerStepKeeps(w, step, token);
    case EndSend(token, _) => WorkerStepKeeps(w, step, token);
    case Crash(token) => WorkerStepKeeps(w, step, token);
  }

  lemma IncidentsKept(a: Table, b: Table, alerts: map<int, AlertState>)
    requires IncidentsReported(a, alerts) && RowsExtend(a, b)
    ensures IncidentsReported(b, alerts)
  {
    forall device | device in alerts && alerts[device].incidentId.Some?
      ensures HasTopic(b, Outage(device, alerts[device].incidentId.value))
    {
      ExtendKeepsTopic(a, b, Outage(device, alerts[device].incidentId.value));
    }
  }

  // ---------------------------------------------------------------- runs

  ghost predicate ValidRun(steps: seq<Step>)
    decreases |steps|, 0
  {
    steps == [] ||
    var n := |steps| - 1;
    ValidRun(steps[..n]) && Enabled(Reached(steps[..n]), steps[n])
  }

  /** The world after a run from the empty database. */
  ghost function Reached(steps: seq<Step>): World
    requires ValidRun(steps)
    decreases |steps|, 1
  {
    if steps == [] then INITIAL
    else Next(Reached(steps[..|steps| - 1]), steps[|steps| - 1])
  }

  lemma {:induction false} RunKeepsInv(steps: seq<Step>)
    requires ValidRun(steps)
    ensures Inv(Reached(steps))
  {
    hide Next, Enabled;
    if steps == [] {
      hide RowsInv;
      assert RowsInv(INITIAL.rows, INITIAL.workers) by { EmptyInv(); }
    } else {
      hide Inv;
      RunKeepsInv(steps[..|steps| - 1]);
      StepKeepsInv(Reached(steps[..|steps| - 1]), steps[|steps| - 1]);
    }
  }

  lemma EmptyInv()
    ensures RowsInv(INITIAL.rows, INITIAL.workers)
  {
  }

  /** Splitting a run at one of its steps. */
  lemma {:induction false} Prefix(steps: seq<Step>, k: nat)
    requires ValidRun(steps) && k <= |steps|
    ensures ValidRun(steps[..k])
    ensures k < |steps| ==> Enabled(Reached(steps[..k]), steps[k])
    ensures k < |steps| ==> ValidRun(steps[..k + 1]) && Reached(steps[..k + 1]) == Next(Reached(steps[..k]), steps[k])
    decreases |steps|
  {
    hide Next, Enabled;
    if k == |steps| {
      assert steps[..k] == steps;
    } else if k == |steps| - 1 {
      assert steps[..k + 1] == steps;
    } else {
      var init := steps[..|steps| - 1];
      Prefix(init, k);
      assert init[..k] == steps[..k] && init[..k + 1] == steps[..k + 1];
    }
  }

  /** The world before step k of a run. */
  ghost function Before(steps: seq<Step>, k: nat): World
    requires ValidRun(steps) && k <= |steps|
  {
    Prefix(steps, k);
    Reached(steps[..k])
  }

  lemma StepAt(steps: seq<Step>, k: nat)
    requires ValidRun(steps) && k < |steps|
    ensures Inv(Before(steps, k)) && Enabled(Before(steps, k), steps[k])
    ensures Before(steps, k + 1) == Next(Before(steps, k), steps[k])
    ensures Inv(Before(steps, k + 1))
  {
    hide Next, Enabled, Inv;
    Prefix(steps, k);
    RunKeepsInv(steps[..k]);
    Prefix(steps, k + 1);
    RunKeepsInv(steps[..k + 1]);
  }
}
