/** What each transaction of the outbox does, column by column, without the functions that compute it. */
module OutboxRules {
  import opened Wrappers
  import opened QuietHours
  import opened DeviceAlerts
  import opened Outbox

  // ---------------------------------------------------------------- relevance

  /** An outage message is sent exactly while its channel is on and its incident is the open one of an
      active device outside quiet hours that has not reported since and is still silent. */
  lemma OutageRelevantExactly(rows: Table, device: int, incident: Incident, enabled: bool, view: Option<DeviceView>,
                              now: int)
    ensures IsRelevant(rows, Outage(device, incident), enabled, view, now)
       <==> && enabled && view.Some?
            && var DeviceView(seen, state) := view.value;
            && state.incidentId == Some(incident)
            && seen.isActive && !IsQuietAt(seen.quietHours, now)
            && seen.lastSeenAt == state.observedLastSeenAt && Silent(seen, now)
  {
    if view.Some? { StatusExactly(view.value.device, now); }
    hide IsQuietAt, DeviceStatusOf;
  }

  /** A recovery message is sent exactly while its channel is on, the device is active, has no open
      incident and has reported within 90 seconds, and the newest outage of the device, by creation
      and then id, is the one of the same incident, and SENT. */
  lemma RecoveryRelevantExactly(rows: Table, device: int, incident: Incident, enabled: bool,
                                view: Option<DeviceView>, now: int)
    ensures IsRelevant(rows, Recovery(device, incident), enabled, view, now)
       <==> && enabled && view.Some?
            && var DeviceView(seen, state) := view.value;
            && seen.isActive && state.incidentId.None? && !Silent(seen, now)
            && exists id :: id in rows && rows[id].topic == Outage(device, incident) && rows[id].status == Sent
                 && forall other :: other in rows && rows[other].topic.Outage? && rows[other].topic.device == device ==>
                      || rows[other].createdAt < rows[id].createdAt
                      || (rows[other].createdAt == rows[id].createdAt && other <= id)
  {
    forall id | id in rows
      ensures IsLatestOutage(rows, device, id) && rows[id].topic.incident == incident && rows[id].status == Sent
         <==> && rows[id].topic == Outage(device, incident) && rows[id].status == Sent
              && forall other :: other in rows && rows[other].topic.Outage? && rows[other].topic.device == device ==>
                   || rows[other].createdAt < rows[id].createdAt
                   || (rows[other].createdAt == rows[id].createdAt && other <= id)
    {
    }
    hide IsLatestOutage;
  }

  /** A reminder is sent exactly while its channel is on. */
  lemma ReminderRelevantExactly(rows: Table, slot: int, enabled: bool, view: Option<DeviceView>, now: int)
    ensures IsRelevant(rows, Reminder(slot), enabled, view, now) <==> enabled
  {
  }

  /** An alert that the job raises is relevant at once, and, while device and state stay as they are,
      at any later time outside quiet hours. */
  lemma RaisedAlertIsRelevant(rows: Table, device: Device, previous: Option<AlertState>, now: int, at: int,
                              incident: Incident)
    requires EvaluateDeviceAlert(device, previous, now).shouldAlert && now <= at
    ensures var view := Some(DeviceView(device, StoredState(EvaluateDeviceAlert(device, previous, now), incident)));
            && IsRelevant(rows, Outage(device.id, incident), true, view, now)
            && (IsRelevant(rows, Outage(device.id, incident), true, view, at) <==> !IsQuietAt(device.quietHours, at))
  {
    AlertsExactly(device, previous, now);
    StateExactly(device, previous, now, incident);
    var view := Some(DeviceView(device, StoredState(EvaluateDeviceAlert(device, previous, now), incident)));
    OutageRelevantExactly(rows, device.id, incident, true, view, now);
    OutageRelevantExactly(rows, device.id, incident, true, view, at);
    AlertImpliesSilentAndAwake(device, previous, now);
    hide IsRelevant, EvaluateDeviceAlert, IsQuietAt, QuietWithin;
  }

  /** A recovery that the job records is relevant at once exactly when its outage is the newest of
      the device and has been sent. */
  lemma RecordedRecoveryIsRelevant(rows: Table, device: Device, previous: Option<AlertState>, now: int,
                                   incident: Incident, next: Incident)
    requires EvaluateDeviceAlert(device, previous, now).recoveredIncidentId == Some(incident)
    ensures IsRelevant(rows, Recovery(device.id, incident), true,
                       Some(DeviceView(device, StoredState(EvaluateDeviceAlert(device, previous, now), next))), now)
       <==> LatestOutageSent(rows, device.id, incident)
  {
    RecoversExactly(device, previous, now, incident);
    AlertExcludesRecovery(device, previous, now, next);
    hide LatestOutageSent, EvaluateDeviceAlert;
  }

  // ---------------------------------------------------------------- claim

  /** The row before any other that is open, due and not expired, and, if it is a recovery, has no
      open and unexpired outage. */
  ghost predicate IsTurnOf(rows: Table, id: Id, now: int) {
    && MayGo(rows, id, now)
    && forall other :: other in rows && MayGo(rows, other, now) ==>
         rows[id].createdAt < rows[other].createdAt || (rows[id].createdAt == rows[other].createdAt && id <= other)
  }

  ghost predicate MayGo(rows: Table, id: Id, now: int) {
    && id in rows && rows[id].status in {Pending, Sending}
    && rows[id].availableAt <= now < rows[id].expiresAt
    && (rows[id].topic.Recovery? ==> forall other ::
          other in rows && rows[other].status in {Pending, Sending} && now < rows[other].expiresAt ==>
            rows[other].topic != Outage(rows[id].topic.device, rows[id].topic.incident))
  }

  lemma MayGoIsClaimable(rows: Table, now: int, id: Id)
    ensures MayGo(rows, id, now) <==> Claimable(ExpireDue(rows, now), id, now)
  {
    var rows1 := ExpireDue(rows, now);
    if id in rows && rows[id].topic.Recovery? {
      var outage := Outage(rows[id].topic.device, rows[id].topic.incident);
      if other :| && other in rows && rows[other].status in {Pending, Sending} && now < rows[other].expiresAt
                  && rows[other].topic == outage {
        assert rows1[other].topic == outage && rows1[other].Open();
      }
      if other :| other in rows1 && rows1[other].topic == outage && rows1[other].Open() {
        assert rows[other].topic == outage;
      }
    }
  }

  /** The row whose turn it is is the one that the claim selects. */
  lemma TurnIsNext(rows: Table, now: int, id: Id)
    ensures IsTurnOf(rows, id, now) <==> IsNext(ExpireDue(rows, now), id, now)
  {
    var rows1 := ExpireDue(rows, now);
    forall other
      ensures MayGo(rows, other, now) <==> Claimable(rows1, other, now)
    {
      MayGoIsClaimable(rows, now, other);
    }
    hide MayGo, Claimable;
    if id in rows {
      forall other | other in rows
        ensures rows1[other].createdAt == rows[other].createdAt
      {
      }
    }
  }

  lemma TurnIsTaken(rows: Table, now: int, id: Id)
    ensures NextToSend(ExpireDue(rows, now), now) == Some(id) <==> IsTurnOf(rows, id, now)
  {
    var rows1 := ExpireDue(rows, now);
    TurnIsNext(rows, now, id);
    hide IsTurnOf, ExpireDue;
    var next := NextToSend(rows1, now);
    if IsNext(rows1, id, now) {
      NextIsKnown(rows1, id, now);
      if next.Some? { OneIsNext(rows1, id, next.value, now); }
    }
  }

  /** Without a free lease a claim changes nothing but the missing lease row. */
  lemma BusyLeaseBlocks(rows: Table, lease: Option<Lease>, token: Token, now: int)
    ensures lease.Some? && (now < lease.value.lockedUntil || now < lease.value.nextSendAt) ==>
              ClaimTx(rows, lease, token, now) == ClaimResult(rows, lease, None)
  {
  }

  /** What a claim with a free lease leaves of every row: expired ones are CANCELED, the one whose turn
      it is becomes SENDING under the token with one attempt more, or FAILED after five, and every
      other row stays. */
  lemma ClaimExactly(rows: Table, lease: Option<Lease>, token: Token, now: int, id: Id)
    requires lease.Some? ==> lease.value.lockedUntil <= now && lease.value.nextSendAt <= now
    requires id in rows
    ensures var result := ClaimTx(rows, lease, token, now);
            && result.rows.Keys == rows.Keys
            && result.rows[id]
               == if rows[id].status in {Pending, Sending} && rows[id].expiresAt <= now then
                    rows[id].(status := Canceled, claimToken := None, lastError := Some(Expired))
                  else if IsTurnOf(rows, id, now) && rows[id].attempts < 5 then
                    rows[id].(status := Sending, claimToken := Some(token), attempts := rows[id].attempts + 1)
                  else if IsTurnOf(rows, id, now) then
                    rows[id].(status := Failed, claimToken := None, lastError := Some(Exhausted))
                  else rows[id]
  {
    TurnIsTaken(rows, now, id);
    assert IsTurnOf(rows, id, now) ==> now < rows[id].expiresAt;
    hide IsTurnOf, NextToSend;
  }

  lemma OneIsNext(rows: Table, a: Id, b: Id, now: int)
    requires IsNext(rows, a, now) && IsNext(rows, b, now)
    ensures a == b
  {
    hide Claimable;
    assert a in rows && b in rows by { NextIsKnown(rows, a, now); NextIsKnown(rows, b, now); }
  }

  lemma NextIsKnown(rows: Table, id: Id, now: int)
    requires IsNext(rows, id, now)
    ensures id in rows && Claimable(rows, id, now)
  {
  }

  /** The lease is held for 60 s by a claim that got its row, and otherwise given back with a gap of 1.1 s. */
  lemma ClaimedLeaseExactly(rows: Table, lease: Option<Lease>, token: Token, now: int)
    requires lease.Some? ==> lease.value.lockedUntil <= now && lease.value.nextSendAt <= now
    ensures var result := ClaimTx(rows, lease, token, now);
            && (forall id :: result.claimed == Some(id) <==> IsTurnOf(rows, id, now) && rows[id].attempts < 5)
            && result.lease == if result.claimed.Some?
                 then Some(Lease(Some(token), now + 60_000, if lease.Some? then lease.value.nextSendAt else now))
                 else Some(Lease(None, now, now + 1_100))
  {
    forall id
      ensures NextToSend(ExpireDue(rows, now), now) == Some(id) <==> IsTurnOf(rows, id, now)
      ensures IsTurnOf(rows, id, now) ==> id in rows && now < rows[id].expiresAt
    {
      TurnIsTaken(rows, now, id);
    }
    hide IsTurnOf, NextToSend;
  }

  // ---------------------------------------------------------------- finish

  /** What the finish of the lease owner writes: SENT with its time, CANCELED, PENDING again after the
      larger of the retry-after and a minute doubled with every attempt, or FAILED; and the lease is
      given back with a gap of the larger of 1.1 s and the retry-after. */
  lemma FinishExactly(rows: Table, lease: Option<Lease>, id: Id, claimed: Notification, outcome: Outcome, at: int)
    requires claimed.claimToken.Some? && claimed.attempts > 0
    requires Owns(lease, claimed.claimToken.value) && id in rows && rows[id].claimToken == claimed.claimToken
    ensures var (rows1, lease1) := FinishTx(rows, lease, id, claimed, outcome, at);
            var retryAfter := if outcome.Error? then outcome.retryAfter else 0;
            var delay := 60_000 * PowerOfTwo(claimed.attempts - 1);
            && lease1 == Some(Lease(None, at, at + if retryAfter > 1_100 then retryAfter else 1_100))
            && rows1 == rows[id := rows[id].(
                 claimToken := None,
                 status := match outcome
                           case Delivered => Sent
                           case Irrelevant => Canceled
                           case Error(retryable, _) => if retryable && claimed.attempts < 5 then Pending else Failed,
                 lastError := if outcome.Error? then Some(Undelivered) else None,
                 sentAt := if outcome.Delivered? then Some(at) else None,
                 availableAt := if outcome.Error? && outcome.retryable && claimed.attempts < 5
                                then at + (if retryAfter > delay then retryAfter else delay) else claimed.availableAt)]
  {
  }

  /** A finish without the lease changes nothing. */
  lemma FinishNeedsTheLease(rows: Table, lease: Option<Lease>, id: Id, claimed: Notification, outcome: Outcome, at: int)
    requires claimed.claimToken.Some? && claimed.attempts > 0
    ensures lease.None? || lease.value.claimToken != claimed.claimToken ==>
              FinishTx(rows, lease, id, claimed, outcome, at) == (rows, lease)
  {
  }

  // ---------------------------------------------------------------- detection

  /** A notification as the jobs insert it: due at once, for one hour. */
  predicate IsFresh(row: Notification, topic: Topic, now: int) {
    && row.topic == topic && row.status == Pending && row.attempts == 0
    && row.availableAt == now && row.createdAt == now && row.expiresAt == now + 3_600_000
    && row.claimToken.None? && row.lastError.None? && row.sentAt.None?
  }

  predicate HasOutage(rows: Table, device: int, incident: Incident) {
    exists id :: id in rows && rows[id].topic == Outage(device, incident) && rows[id].status in {Pending, Sending, Sent}
  }

  /** One evaluation adds an outage exactly when it alerts, and a recovery exactly when it recovers an
      incident whose outage is pending, sending or sent and whose recovery is not recorded yet. It
      changes no row that is there, and stores the new incident as open. */
  lemma DetectExactly(d: Detection, device: Device, ids: NewIds, now: int)
    requires FreshIds(d, ids)
    ensures var e := EvaluateDeviceAlert(device, PreviousState(d.alerts, device.id), now);
            var after := DetectOne(d, device, ids, now);
            var recovers := && e.recoveredIncidentId.Some?
                            && HasOutage(d.rows, device.id, e.recoveredIncidentId.value)
                            && !HasTopic(d.rows, Recovery(device.id, e.recoveredIncidentId.value));
            && (forall id :: id in d.rows ==> id in after.rows && after.rows[id] == d.rows[id])
            && (forall id :: id in after.rows && id !in d.rows <==>
                  (e.shouldAlert && id == ids.outage) || (recovers && id == ids.recovery))
            && (e.shouldAlert ==> IsFresh(after.rows[ids.outage], Outage(device.id, ids.incident), now))
            && (recovers ==> IsFresh(after.rows[ids.recovery], Recovery(device.id, e.recoveredIncidentId.value), now))
            && after.alerts
               == d.alerts[device.id := if e.shouldAlert then e.state.(incidentId := Some(ids.incident)) else e.state]
  {
    AlertExcludesRecovery(device, PreviousState(d.alerts, device.id), now, ids.incident);
    hide EvaluateDeviceAlert, HasTopic, FreshIds;
    assert ids.outage !in d.rows && ids.recovery !in d.rows && ids.outage != ids.recovery by { FreshRowIds(d, ids); }
  }

  lemma FreshRowIds(d: Detection, ids: NewIds)
    requires FreshIds(d, ids)
    ensures ids.outage !in d.rows && ids.recovery !in d.rows && ids.outage != ids.recovery
  {
  }

  /** The reminder of a slot is inserted once. */
  lemma RemindExactly(rows: Table, id: Id, slot: int, now: int)
    requires id !in rows
    ensures var after := InsertOnce(rows, id, Reminder(slot), now);
            if exists other :: other in rows && rows[other].topic == Reminder(slot) then after == rows
            else after.Keys == rows.Keys + {id} && IsFresh(after[id], Reminder(slot), now) && after - {id} == rows
  {
    hide IsFresh;
    if !HasTopic(rows, Reminder(slot)) {
      assert rows[id := NewNotification(Reminder(slot), now)] - {id} == rows;
      assert IsFresh(NewNotification(Reminder(slot), now), Reminder(slot), now) by { NewIsFresh(Reminder(slot), now); }
    }
  }

  lemma NewIsFresh(topic: Topic, now: int)
    ensures IsFresh(NewNotification(topic, now), topic, now)
  {
  }
}
