/** The per-device outage automaton: device-status.ts and device-alert-policy.ts. */
module DeviceAlerts {
  import opened Wrappers
  import opened QuietHours

  type Incident = int

  datatype DeviceStatus = Online | Offline | Sleeping | Disabled

  /** quietHours are the effective ones: the group's, or the device's own override. */
  datatype Device = Device(id: int, isActive: bool, lastSeenAt: Option<int>, updatedAt: int, quietHours: seq<TimeRange>)

  datatype AlertState = AlertState(
    status: DeviceStatus,
    observedLastSeenAt: Option<int>,
    graceUntil: int,
    incidentId: Option<Incident>,
    checkedAt: int)

  datatype Evaluation = Evaluation(state: AlertState, shouldAlert: bool, recoveredIncidentId: Option<Incident>)

  predicate HasRecentHeartbeat(device: Device, now: int) {
    device.lastSeenAt.Some? && now - device.lastSeenAt.value <= ONLINE_WITHIN_MS
  }

  function DeviceStatusOf(device: Device, now: int): DeviceStatus {
    if !device.isActive then Disabled
    else if IsQuietAt(device.quietHours, now) then Sleeping
    else if HasRecentHeartbeat(device, now) then Online else Offline
  }

  /** A heartbeat newer than the one recorded by the previous evaluation. */
  predicate Recovered(device: Device, previous: Option<AlertState>) {
    && device.lastSeenAt.Some?
    && device.lastSeenAt.value > (if previous.Some? then previous.value.observedLastSeenAt.GetOr(0) else 0)
  }

  function GraceUntil(device: Device, previous: Option<AlertState>, now: int): int {
    var status := DeviceStatusOf(device, now);
    if device.lastSeenAt.None? || status == Disabled || status == Sleeping then now + ONLINE_WITHIN_MS
    else if previous.Some? && (previous.value.status in {Disabled, Sleeping}
        || device.updatedAt > previous.value.checkedAt)
    then now + ONLINE_WITHIN_MS
    else if previous.Some? then previous.value.graceUntil else now
  }

  function EvaluateDeviceAlert(device: Device, previous: Option<AlertState>, now: int): Evaluation {
    var status := DeviceStatusOf(device, now);
    var recovered := Recovered(device, previous);
    var held := if previous.Some? then previous.value.incidentId else None;
    var incidentId := if recovered || status == Online || status == Disabled then None else held;
    var graceUntil := GraceUntil(device, previous, now);
    Evaluation(
      AlertState(status, device.lastSeenAt, graceUntil, incidentId, now),
      && status == Offline
      && device.lastSeenAt.Some?
      && incidentId.None?
      && now >= graceUntil
      && !SampledQuiet(device.quietHours, now)
      && now - device.updatedAt > ONLINE_WITHIN_MS,
      if recovered && device.isActive && HasRecentHeartbeat(device, now) then held else None)
  }

  /** The state that the detection job stores: an alert opens a new incident. */
  function StoredState(result: Evaluation, newIncident: Incident): AlertState {
    if result.shouldAlert then result.state.(incidentId := Some(newIncident)) else result.state
  }

  /** The incident that the previous evaluation left open. */
  predicate Open(previous: Option<AlertState>, incident: Incident) {
    previous.Some? && previous.value.incidentId == Some(incident)
  }

  /** The device reported since the previous evaluation looked, and an unseen device is taken as
      seen at the epoch. */
  predicate ReportedSince(device: Device, previous: Option<AlertState>) {
    match device.lastSeenAt
    case None => false
    case Some(seen) => match previous
      case None => seen > 0
      case Some(state) => if state.observedLastSeenAt.Some? then seen > state.observedLastSeenAt.value else seen > 0
  }

  /** The device has been silent for more than 90 seconds, or was never seen. */
  predicate Silent(device: Device, now: int) {
    match device.lastSeenAt
    case None => true
    case Some(seen) => now > seen + 90_000
  }

  lemma StatusExactly(device: Device, now: int)
    ensures DeviceStatusOf(device, now) == Disabled <==> !device.isActive
    ensures DeviceStatusOf(device, now) == Sleeping <==> device.isActive && IsQuietAt(device.quietHours, now)
    ensures DeviceStatusOf(device, now) == Online
       <==> device.isActive && !IsQuietAt(device.quietHours, now) && !Silent(device, now)
    ensures DeviceStatusOf(device, now) == Offline
       <==> device.isActive && !IsQuietAt(device.quietHours, now) && Silent(device, now)
  {
    hide IsQuietAt;
  }

  /** An evaluation recovers exactly the open incident of an active device that has reported since
      the previous one and within the last 90 seconds. */
  lemma RecoversExactly(device: Device, previous: Option<AlertState>, now: int, incident: Incident)
    ensures EvaluateDeviceAlert(device, previous, now).recoveredIncidentId == Some(incident)
       <==> && Open(previous, incident) && device.isActive
            && ReportedSince(device, previous) && !Silent(device, now)
  {
    hide IsQuietAt, SampledQuiet;
  }

  /** The previous evaluation, if any, gives no reason to wait: the device was neither asleep nor
      disabled, nobody has edited it since, and the grace is over. */
  predicate GraceOver(device: Device, previous: Option<AlertState>, now: int) {
    match previous
    case None => true
    case Some(state) =>
      && state.status != Sleeping && state.status != Disabled
      && device.updatedAt <= state.checkedAt && state.graceUntil <= now
  }

  /** An evaluation alerts exactly about an active device that was seen once, has been silent for more
      than 90 seconds, was edited longer ago than that, was outside its quiet hours for all of the last
      90 seconds, has no open incident from before its last report, and whose grace is over. */
  lemma AlertsExactly(device: Device, previous: Option<AlertState>, now: int)
    ensures EvaluateDeviceAlert(device, previous, now).shouldAlert
       <==> && device.isActive && device.lastSeenAt.Some? && Silent(device, now)
            && now > device.updatedAt + 90_000
            && !QuietWithin(device.quietHours, now - 90_000, now)
            && (previous.None? || previous.value.incidentId.None? || ReportedSince(device, previous))
            && GraceOver(device, previous, now)
  {
    SamplesAreExact(device.quietHours, now);
    assert SampledQuiet(device.quietHours, now) <==> QuietWithin(device.quietHours, now - 90_000, now);
    assert IsQuietAt(device.quietHours, now) ==> SampledQuiet(device.quietHours, now);
    hide IsQuietAt, SampledQuiet, QuietWithin;
  }

  /** The device is off duty, was so at the previous evaluation, or was edited since. */
  predicate Unsettled(device: Device, previous: Option<AlertState>, now: int) {
    || !device.isActive || IsQuietAt(device.quietHours, now) || device.lastSeenAt.None?
    || (previous.Some?
        && (previous.value.status in {Sleeping, Disabled} || device.updatedAt > previous.value.checkedAt))
  }

  /** What the evaluation remembers: the heartbeat it saw, when it looked, the incident that stays
      open, and 90 seconds of grace for an unsettled device. */
  lemma StateExactly(device: Device, previous: Option<AlertState>, now: int, incident: Incident)
    ensures var state := EvaluateDeviceAlert(device, previous, now).state;
            && state.status == DeviceStatusOf(device, now)
            && state.observedLastSeenAt == device.lastSeenAt && state.checkedAt == now
            && (state.incidentId == Some(incident) <==>
                  && Open(previous, incident) && device.isActive && !ReportedSince(device, previous)
                  && (IsQuietAt(device.quietHours, now) || Silent(device, now)))
            && state.graceUntil == if Unsettled(device, previous, now) then now + 90_000
                                   else if previous.Some? then previous.value.graceUntil else now
  {
    hide IsQuietAt, SampledQuiet;
  }

  /** An alert is raised only about an active device that was seen before, has been silent for more
      than 90 seconds, and was outside its quiet hours during all of the last 90 seconds. */
  lemma AlertImpliesSilentAndAwake(device: Device, previous: Option<AlertState>, now: int)
    requires EvaluateDeviceAlert(device, previous, now).shouldAlert
    ensures device.isActive
    ensures device.lastSeenAt.Some? && device.lastSeenAt.value + ONLINE_WITHIN_MS < now
    ensures device.updatedAt + ONLINE_WITHIN_MS < now
    ensures forall t :: now - ONLINE_WITHIN_MS <= t <= now ==> !IsQuietAt(device.quietHours, t)
  {
    SamplesAreExact(device.quietHours, now);
  }

  /** No evaluation both alerts and recovers, and a recovery closes exactly the incident that was open. */
  lemma AlertExcludesRecovery(device: Device, previous: Option<AlertState>, now: int, newIncident: Incident)
    ensures var e := EvaluateDeviceAlert(device, previous, now);
            && !(e.shouldAlert && e.recoveredIncidentId.Some?)
            && (e.recoveredIncidentId.Some? ==>
                  && previous.Some? && previous.value.incidentId == e.recoveredIncidentId
                  && StoredState(e, newIncident).incidentId.None?)
  {
  }

  // ---------------------------------------------------------------- one device over time

  /** What one run of the job sees of the device, and the incident id it would open. */
  datatype Observation = Observation(device: Device, now: int, newIncident: Incident)

  function StateAfter(obs: seq<Observation>): Option<AlertState> {
    if obs == [] then None else
      var last := obs[|obs| - 1];
      Some(StoredState(EvaluateDeviceAlert(last.device, StateAfter(obs[..|obs| - 1]), last.now), last.newIncident))
  }

  function EvaluationAt(obs: seq<Observation>, k: nat): Evaluation
    requires k < |obs|
  {
    EvaluateDeviceAlert(obs[k].device, StateAfter(obs[..k]), obs[k].now)
  }

  predicate Alerts(obs: seq<Observation>, k: nat)
    requires k < |obs|
  {
    EvaluationAt(obs, k).shouldAlert
  }

  predicate SeenNoLater(a: Option<int>, b: Option<int>) {
    a.None? || (b.Some? && a.value <= b.value)
  }

  /** Neither the clock nor the last heartbeat goes back. */
  predicate Chronological(obs: seq<Observation>) {
    forall i, j :: 0 <= i < j < |obs| ==>
      obs[i].now <= obs[j].now && SeenNoLater(obs[i].device.lastSeenAt, obs[j].device.lastSeenAt)
  }

  predicate NewerHeartbeat(a: Device, b: Device) {
    b.lastSeenAt.Some? && (a.lastSeenAt.None? || a.lastSeenAt.value < b.lastSeenAt.value)
  }

  predicate Resets(obs: seq<Observation>, i: nat, m: nat)
    requires i < |obs| && m < |obs|
  {
    NewerHeartbeat(obs[i].device, obs[m].device) || !obs[m].device.isActive
  }

  lemma PrefixStep(obs: seq<Observation>, k: nat)
    requires k < |obs|
    ensures StateAfter(obs[..k + 1]) == Some(StoredState(EvaluationAt(obs, k), obs[k].newIncident))
  {
    assert obs[..k + 1][..k] == obs[..k];
  }

  /** Until a newer heartbeat or an inactive device is seen, the incident opened at i stays open. */
  lemma {:induction false} IncidentHeld(obs: seq<Observation>, i: nat, k: nat)
    requires Chronological(obs) && i < k <= |obs| && Alerts(obs, i)
    requires forall m :: i < m < k ==> !Resets(obs, i, m)
    ensures StateAfter(obs[..k]).Some?
    ensures StateAfter(obs[..k]).value.incidentId == Some(obs[i].newIncident)
    ensures StateAfter(obs[..k]).value.observedLastSeenAt == obs[i].device.lastSeenAt
  {
    hide IsQuietAt, SampledQuiet, StateAfter;
    PrefixStep(obs, k - 1);
    if i < k - 1 {
      IncidentHeld(obs, i, k - 1);
      assert !Resets(obs, i, k - 1);
    }
  }

  /** Between two alerts of one device there is a strictly newer heartbeat, or an evaluation that saw it inactive. */
  lemma AlertsAreSeparated(obs: seq<Observation>, i: nat, j: nat)
    requires Chronological(obs) && i < j < |obs| && Alerts(obs, i) && Alerts(obs, j)
    ensures exists m :: i < m <= j && Resets(obs, i, m)
  {
    hide IsQuietAt, SampledQuiet, StateAfter;
    assert Resets(obs, i, j) || !Resets(obs, i, j);
    if forall m :: i < m <= j ==> !Resets(obs, i, m) {
      IncidentHeld(obs, i, j);
    }
  }

  lemma {:induction false} GraceLasts(obs: seq<Observation>, i: nat, k: nat)
    requires Chronological(obs) && i < k <= |obs|
    requires EvaluationAt(obs, i).state.status in {Sleeping, Disabled}
    ensures StateAfter(obs[..k]).Some?
    ensures StateAfter(obs[..k]).value.graceUntil >= obs[i].now + ONLINE_WITHIN_MS
  {
    hide IsQuietAt, SampledQuiet, StateAfter;
    PrefixStep(obs, k - 1);
    if i < k - 1 { GraceLasts(obs, i, k - 1); }
  }

  /** After an evaluation that found the device asleep or disabled, no alert comes for 90 seconds. */
  lemma GraceAfterSleep(obs: seq<Observation>, i: nat, k: nat)
    requires Chronological(obs) && i < k < |obs| && Alerts(obs, k)
    requires EvaluationAt(obs, i).state.status in {Sleeping, Disabled}
    ensures obs[k].now >= obs[i].now + ONLINE_WITHIN_MS
  {
    hide IsQuietAt, SampledQuiet, StateAfter;
    GraceLasts(obs, i, k);
  }
}
