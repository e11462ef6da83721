/** The Slack outbox: the notification table, the one delivery lease, and the transactions that the
    dispatcher and the detection job run on them. */
module Outbox {
  import opened Wrappers
  import opened DeviceAlerts

  const MAX_ATTEMPTS: nat := 5
  const LEASE_MS: int := 60_000
  const SEND_GAP_MS: int := 1_100
  const EXPIRY_MS: int := 3_600_000
  const BACKOFF_MS: int := 60_000

  type Id = int
  type Token = int

  /** Kind, device and incident of a notification. The unique dedupe key is a function of it:
      device:<device>:<incident>, device-recovered:<device>:<incident> or review:<slot>. */
  datatype Topic =
    | Outage(device: int, incident: Incident)
    | Recovery(device: int, incident: Incident)
    | Reminder(slot: int)

  datatype Status = Pending | Sending | Sent | Failed | Canceled

  datatype ErrorCode = Expired | Exhausted | Undelivered

  datatype Notification = Notification(
    topic: Topic,
    status: Status,
    attempts: nat,
    availableAt: int,
    expiresAt: int,
    claimToken: Option<Token>,
    lastError: Option<ErrorCode>,
    sentAt: Option<int>,
    createdAt: int)
  {
    predicate Open() { status == Pending || status == Sending }
  }

  type Table = map<Id, Notification>

  datatype Lease = Lease(claimToken: Option<Token>, lockedUntil: int, nextSendAt: int)

  /** How one delivery attempt ended. A failed relevance query is Error(true, 0). */
  datatype Outcome = Delivered | Irrelevant | Error(retryable: bool, retryAfter: nat)
  {
    function RetryAfter(): nat { if Error? then retryAfter else 0 }
  }

  function Max(a: int, b: int): int { if a >= b then a else b }

  function PowerOfTwo(n: nat): nat { if n == 0 then 1 else 2 * PowerOfTwo(n - 1) }

  // ---------------------------------------------------------------- claim

  function ExpireDue(rows: Table, now: int): Table {
    map id | id in rows ::
      if rows[id].Open() && rows[id].expiresAt <= now
      then rows[id].(status := Canceled, claimToken := None, lastError := Some(Expired))
      else rows[id]
  }

  predicate OutageUnsettled(rows: Table, device: int, incident: Incident) {
    exists id :: id in rows && rows[id].topic == Outage(device, incident) && rows[id].Open()
  }

  /** A recovery waits until the outage message of its incident is settled. */
  predicate Claimable(rows: Table, id: Id, now: int) {
    && id in rows
    && rows[id].Open()
    && rows[id].availableAt <= now
    && (rows[id].topic.Recovery? ==> !OutageUnsettled(rows, rows[id].topic.device, rows[id].topic.incident))
  }

  predicate Older(rows: Table, a: Id, b: Id)
    requires a in rows && b in rows
  {
    rows[a].createdAt < rows[b].createdAt || (rows[a].createdAt == rows[b].createdAt && a < b)
  }

  predicate IsNext(rows: Table, id: Id, now: int) {
    && Claimable(rows, id, now)
    && forall other :: other in rows && Claimable(rows, other, now) && other != id ==> Older(rows, id, other)
  }

  lemma {:induction false} OldestExists(rows: Table, ids: set<Id>) returns (oldest: Id)
    requires ids != {} && forall id :: id in ids ==> id in rows
    ensures oldest in ids && forall id :: id in ids && id != oldest ==> Older(rows, oldest, id)
    decreases |ids|
  {
    assert (forall id :: id !in ids) ==> ids == {};
    var first :| first in ids;
    var others := ids - {first};
    assert ids == others + {first};
    if others == {} {
      oldest := first;
    } else {
      var rest := OldestExists(rows, others);
      oldest := if Older(rows, first, rest) then first else rest;
    }
  }

  lemma NextExists(rows: Table, id: Id, now: int)
    requires Claimable(rows, id, now)
    ensures exists next :: next in rows && IsNext(rows, next, now)
  {
    var ids := set other | other in rows && Claimable(rows, other, now);
    assert id in ids;
    var oldest := OldestExists(rows, ids);
    assert IsNext(rows, oldest, now);
  }

  /** The oldest notification that may be sent now. */
  ghost function NextToSend(rows: Table, now: int): (next: Option<Id>)
    ensures next.None? ==> forall id :: !Claimable(rows, id, now)
    ensures next.Some? ==> IsNext(rows, next.value, now)
  {
    if exists id :: id in rows && IsNext(rows, id, now) then
      var id :| id in rows && IsNext(rows, id, now);
      Some(id)
    else
      assert forall id :: !Claimable(rows, id, now) by {
        forall id | Claimable(rows, id, now) ensures false { NextExists(rows, id, now); }
      }
      None
  }

  predicate LeaseFree(lease: Lease, now: int) { lease.lockedUntil <= now && lease.nextSendAt <= now }

  function CurrentLease(lease: Option<Lease>, now: int): Lease { lease.GetOr(Lease(None, now, now)) }

  datatype ClaimResult = ClaimResult(rows: Table, lease: Option<Lease>, claimed: Option<Id>)

  /** The claim transaction. */
  ghost function ClaimTx(rows: Table, lease: Option<Lease>, token: Token, now: int): ClaimResult {
    var current := CurrentLease(lease, now);
    if !LeaseFree(current, now) then ClaimResult(rows, Some(current), None)
    else
      var rows1 := ExpireDue(rows, now);
      var released := Some(Lease(None, now, now + SEND_GAP_MS));
      match NextToSend(rows1, now)
      case None => ClaimResult(rows1, released, None)
      case Some(id) =>
        if rows1[id].attempts >= MAX_ATTEMPTS then
          ClaimResult(
            rows1[id := rows1[id].(status := Failed, claimToken := None, lastError := Some(Exhausted))],
            released, None)
        else
          ClaimResult(
            rows1[id := rows1[id].(status := Sending, claimToken := Some(token), attempts := rows1[id].attempts + 1)],
            Some(current.(claimToken := Some(token), lockedUntil := now + LEASE_MS)), Some(id))
  }

  // ---------------------------------------------------------------- relevance

  /** The device row joined with its alert state, as the relevance query read them. */
  datatype DeviceView = DeviceView(device: Device, state: AlertState)

  predicate IsLatestOutage(rows: Table, device: int, id: Id) {
    && id in rows && rows[id].topic.Outage? && rows[id].topic.device == device
    && forall other :: other in rows && other != id && rows[other].topic.Outage? && rows[other].topic.device == device
         ==> Older(rows, other, id)
  }

  predicate LatestOutageSent(rows: Table, device: int, incident: Incident) {
    exists id :: id in rows && IsLatestOutage(rows, device, id)
              && rows[id].topic.incident == incident && rows[id].status == Sent
  }

  predicate IsRelevant(rows: Table, topic: Topic, enabled: bool, view: Option<DeviceView>, now: int) {
    enabled &&
    match topic
    case Reminder(_) => true
    case Recovery(device, incident) =>
      && view.Some?
      && view.value.device.isActive
      && view.value.state.incidentId.None?
      && HasRecentHeartbeat(view.value.device, now)
      && LatestOutageSent(rows, device, incident)
    case Outage(device, incident) =>
      && view.Some?
      && view.value.state.incidentId == Some(incident)
      && view.value.device.lastSeenAt == view.value.state.observedLastSeenAt
      && DeviceStatusOf(view.value.device, now) == Offline
  }

  // ---------------------------------------------------------------- finish

  function FinalStatus(outcome: Outcome, attempts: nat): Status {
    match outcome
    case Delivered => Sent
    case Irrelevant => Canceled
    case Error(retryable, _) => if retryable && attempts < MAX_ATTEMPTS then Pending else Failed
  }

  function RetryDelay(outcome: Outcome, attempts: nat): int
    requires attempts > 0
  {
    Max(outcome.RetryAfter(), BACKOFF_MS * PowerOfTwo(attempts - 1))
  }

  function Finished(row: Notification, claimed: Notification, outcome: Outcome, at: int): Notification
    requires claimed.attempts > 0
  {
    var status := FinalStatus(outcome, claimed.attempts);
    row.(status := status,
         claimToken := None,
         lastError := if outcome.Error? then Some(Undelivered) else None,
         sentAt := if status == Sent then Some(at) else None,
         availableAt := if status == Pending then at + RetryDelay(outcome, claimed.attempts) else claimed.availableAt)
  }

  predicate Owns(lease: Option<Lease>, token: Token) { lease.Some? && lease.value.claimToken == Some(token) }

  /** The finish transaction of the worker that claimed row id with that token. */
  function FinishTx(rows: Table, lease: Option<Lease>, id: Id, claimed: Notification, outcome: Outcome, at: int)
    : (Table, Option<Lease>)
    requires claimed.claimToken.Some? && claimed.attempts > 0
  {
    var token := claimed.claimToken.value;
    if !Owns(lease, token) then (rows, lease)
    else
      var rows1 := if id in rows && rows[id].claimToken == Some(token)
                   then rows[id := Finished(rows[id], claimed, outcome, at)] else rows;
      (rows1, Some(Lease(None, at, at + Max(SEND_GAP_MS, outcome.RetryAfter()))))
  }

  // ---------------------------------------------------------------- detection job

  function NewNotification(topic: Topic, now: int): Notification {
    Notification(topic, Pending, 0, now, now + EXPIRY_MS, None, None, None, now)
  }

  predicate HasTopic(rows: Table, topic: Topic) {
    exists id :: id in rows && rows[id].topic == topic
  }

  /** Insert that does nothing when the dedupe key exists. */
  function InsertOnce(rows: Table, id: Id, topic: Topic, now: int): Table {
    if HasTopic(rows, topic) then rows else rows[id := NewNotification(topic, now)]
  }

  predicate OutageReported(rows: Table, device: int, incident: Incident) {
    exists id :: id in rows && rows[id].topic == Outage(device, incident) && rows[id].status in {Sent, Sending, Pending}
  }

  /** Random ids that one evaluation may use. */
  datatype NewIds = NewIds(incident: Incident, outage: Id, recovery: Id)

  datatype Detection = Detection(rows: Table, alerts: map<int, AlertState>)

  function PreviousState(alerts: map<int, AlertState>, device: int): Option<AlertState> {
    if device in alerts then Some(alerts[device]) else None
  }

  /** What the job does for one device. */
  function DetectOne(d: Detection, device: Device, ids: NewIds, now: int): Detection {
    var result := EvaluateDeviceAlert(device, PreviousState(d.alerts, device.id), now);
    var rows1 := match result.recoveredIncidentId
      case None => d.rows
      case Some(incident) =>
        if OutageReported(d.rows, device.id, incident)
        then InsertOnce(d.rows, ids.recovery, Recovery(device.id, incident), now) else d.rows;
    var rows2 := if result.shouldAlert
      then rows1[ids.outage := NewNotification(Outage(device.id, ids.incident), now)] else rows1;
    Detection(rows2, d.alerts[device.id := StoredState(result, ids.incident)])
  }

  function DetectAll(d: Detection, devices: seq<Device>, ids: seq<NewIds>, now: int): Detection
    requires |devices| == |ids|
  {
    if devices == [] then d
    else
      var n := |devices| - 1;
      DetectOne(DetectAll(d, devices[..n], ids[..n], now), devices[n], ids[n], now)
  }

  /** Ids that no row and no alert state carries yet. */
  predicate FreshIds(d: Detection, ids: NewIds) {
    && ids.outage !in d.rows && ids.recovery !in d.rows && ids.outage != ids.recovery
    && (forall id :: id in d.rows && !d.rows[id].topic.Reminder? ==> d.rows[id].topic.incident != ids.incident)
    && (forall device :: device in d.alerts ==> d.alerts[device].incidentId != Some(ids.incident))
  }

  predicate FreshForAll(d: Detection, devices: seq<Device>, ids: seq<NewIds>, now: int)
    requires |devices| == |ids|
  {
    forall k :: 0 <= k < |devices| ==> FreshIds(DetectAll(d, devices[..k], ids[..k], now), ids[k])
  }

  // ---------------------------------------------------------------- the tables

  class Database {
    var rows: Table
    var lease: Option<Lease>
    var alerts: map<int, AlertState>

    constructor ()
      ensures rows == map[] && lease == None && alerts == map[]
    {
      rows, lease, alerts := map[], None, map[];
    }

    function DetectionState(): Detection
      reads this
    {
      Detection(rows, alerts)
    }

    /** NotificationDispatcher.claim: take the lease, cancel what expired, claim the oldest sendable row. */
    method Claim(token: Token, now: int) returns (claimed: Option<Id>)
      modifies this`rows, this`lease
      ensures ClaimResult(rows, lease, claimed) == ClaimTx(old(rows), old(lease), token, now)
    {
      if lease.None? {
        lease := Some(Lease(None, now, now));
      }
      if !LeaseFree(lease.value, now) {
        return None;
      }
      ghost var current := lease.value;
      lease := Some(lease.value.(claimToken := Some(token), lockedUntil := now + LEASE_MS));
      rows := ExpireDue(rows, now);
      if exists id :: id in rows && Claimable(rows, id, now) {
        ghost var some :| some in rows && Claimable(rows, some, now);
        NextExists(rows, some, now);
        var id :| id in rows && IsNext(rows, id, now);
        assert NextToSend(rows, now) == Some(id);
        if rows[id].attempts < MAX_ATTEMPTS {
          rows := rows[id := rows[id].(
            status := Sending, claimToken := Some(token), attempts := rows[id].attempts + 1)];
          return Some(id);
        }
        rows := rows[id := rows[id].(status := Failed, claimToken := None, lastError := Some(Exhausted))];
      }
      lease := Some(Lease(None, now, now + SEND_GAP_MS));
      return None;
    }

    /** The closing transaction of NotificationDispatcher.run. */
    method Finish(id: Id, claimed: Notification, outcome: Outcome, at: int) returns (owned: bool)
      requires claimed.claimToken.Some? && claimed.attempts > 0
      modifies this`rows, this`lease
      ensures (rows, lease) == FinishTx(old(rows), old(lease), id, claimed, outcome, at)
      ensures owned == Owns(old(lease), claimed.claimToken.value)
    {
      var token := claimed.claimToken.value;
      owned := lease.Some? && lease.value.claimToken == Some(token);
      if !owned {
        return;
      }
      lease := Some(Lease(None, at, at + Max(SEND_GAP_MS, outcome.RetryAfter())));
      if id in rows && rows[id].claimToken == Some(token) {
        rows := rows[id := Finished(rows[id], claimed, outcome, at)];
      }
    }

    /** DeviceOfflineAlertJob.run, under its job lock. queued counts the inserted notifications. */
    method DetectOffline(devices: seq<Device>, ids: seq<NewIds>, now: int) returns (queued: nat)
      requires |devices| == |ids|
      requires FreshForAll(DetectionState(), devices, ids, now)
      modifies this`rows, this`alerts
      ensures DetectionState() == DetectAll(old(DetectionState()), devices, ids, now)
      ensures |rows| == |old(rows)| + queued
    {
      queued := 0;
      ghost var start := DetectionState();
      for k := 0 to |devices|
        invariant DetectionState() == DetectAll(start, devices[..k], ids[..k], now)
        invariant |rows| == |start.rows| + queued
      {
        var device := devices[k];
        ghost var before := DetectionState();
        assert FreshIds(before, ids[k]);
        var result := EvaluateDeviceAlert(device, PreviousState(alerts, device.id), now);
        if result.recoveredIncidentId.Some? {
          var incident := result.recoveredIncidentId.value;
          if OutageReported(rows, device.id, incident) && !HasTopic(rows, Recovery(device.id, incident)) {
            rows := rows[ids[k].recovery := NewNotification(Recovery(device.id, incident), now)];
            queued := queued + 1;
          }
        }
        var state := result.state;
        if result.shouldAlert {
          state := state.(incidentId := Some(ids[k].incident));
          rows := rows[ids[k].outage := NewNotification(Outage(device.id, ids[k].incident), now)];
          queued := queued + 1;
        }
        alerts := alerts[device.id := state];
        assert DetectionState() == DetectOne(before, device, ids[k], now);
        assert devices[..k + 1][..k] == devices[..k] && ids[..k + 1][..k] == ids[..k];
      }
      assert devices[..|devices|] == devices && ids[..|ids|] == ids;
    }
  }
}
