/** The status job is invisible: whether and when it runs changes no decision, no playlist and no count. */
module StatusJob {
  import opened Wrappers
  import opened SeoulTime
  import opened Submissions

  // ---------------------------------------------------------------- runs with and without the job

  /** A request reads, decides and writes at one time; current tells whether its caller has
      reloaded the submission since it last changed. */
  datatype Step =
    | Job(at: int)
    | Ask(at: int, id: Id, op: Operation, current: bool)
    | Create(at: int, id: Id, row: Submission)

  /** The answer to a request. The stored row is compared separately, version numbers aside. */
  datatype Verdict = Done | Kept | Missing | Conflicting | NotAgain | Refused(reason: Outcome)

  function VerdictOf(outcome: Outcome): Verdict {
    match outcome
    case Commit(_) => Done
    case Unchanged => Kept
    case NotFound => Missing
    case Conflict => Conflicting
    case NotResubmittable => NotAgain
    case _ => Refused(outcome)
  }

  /** The request as its caller sends it: with the version of the row as it is, or with an older one. */
  function Stamped(op: Operation, row: Submission, current: bool): Operation {
    var version := if current then row.version else row.version - 1;
    match op
    case Update(user, _, edit) => Update(user, version, edit)
    case Submit(user, _) => Submit(user, version)
    case Cancel(user, _) => Cancel(user, version)
    case Approve(_, ready, number) => Approve(version, ready, number)
    case Reject(_) => Reject(version)
    case Suspend(user, reviewer) => Suspend(user, reviewer)
  }

  ghost predicate AllWellFormed(rows: Table) { forall id :: id in rows ==> WellFormed(rows[id]) }

  function Answer(rows: Table, step: Step): Outcome
    requires step.Ask? && (step.id in rows ==> WellFormed(rows[step.id]))
  {
    if step.id !in rows then NotFound
    else Decide(Stamped(step.op, rows[step.id], step.current), rows[step.id], step.at)
  }

  ghost function Apply(rows: Table, step: Step): (next: Table)
    requires AllWellFormed(rows)
    ensures AllWellFormed(next)
  {
    match step
    case Job(at) =>
      JobKeepsWellFormed(rows, at);
      SyncAll(rows, at)
    case Ask(at, id, op, current) =>
      var outcome := Answer(rows, step);
      if outcome.Commit? then
        CommitIsWellFormed(Stamped(op, rows[id], current), rows[id], at);
        rows[id := outcome.row]
      else rows
    case Create(at, id, row) => if id in rows || !WellFormed(row) then rows else rows[id := row]
  }

  lemma JobKeepsWellFormed(rows: Table, at: int)
    requires AllWellFormed(rows)
    ensures AllWellFormed(SyncAll(rows, at)) && SyncAll(rows, at).Keys == rows.Keys
  {
    assert SyncAll(rows, at).Keys == rows.Keys;
    hide SyncAll;
    forall id | id in rows
      ensures WellFormed(SyncAll(rows, at)[id])
    {
      SyncIsTimely(rows, at, id);
    }
  }

  ghost function Final(rows: Table, steps: seq<Step>): Table
    requires AllWellFormed(rows)
    decreases |steps|
  {
    if steps == [] then rows else Final(Apply(rows, steps[0]), steps[1..])
  }

  /** The answers to all requests of a run, in order. */
  ghost function Verdicts(rows: Table, steps: seq<Step>): seq<Verdict>
    requires AllWellFormed(rows)
    decreases |steps|
  {
    if steps == [] then []
    else
      var first := if steps[0].Ask? then [VerdictOf(Answer(rows, steps[0]))] else [];
      first + Verdicts(Apply(rows, steps[0]), steps[1..])
  }

  function WithoutJob(steps: seq<Step>): seq<Step> {
    if steps == [] then [] else (if steps[0].Job? then [] else [steps[0]]) + WithoutJob(steps[1..])
  }

  predicate Chronological(steps: seq<Step>) {
    forall i, j :: 0 <= i < j < |steps| ==> steps[i].at <= steps[j].at
  }

  /** What a step does: a request about an unknown submission is not found, any other one is decided
      as it was sent, with the version of the row if its caller has reloaded it and another one if not;
      its row is stored when it commits. A new submission is stored under a free id. */
  lemma StepsExactly(rows: Table, step: Step, id: Id)
    requires AllWellFormed(rows)
    ensures var next := Apply(rows, step);
            match step
            case Job(at) => next == SyncAll(rows, at)
            case Ask(at, asked, op, current) =>
              && (asked !in rows ==> Answer(rows, step) == NotFound && next == rows)
              && (asked in rows ==>
                    var sent := Stamped(op, rows[asked], current);
                    && Answer(rows, step) == Decide(sent, rows[asked], at)
                    && (op.Suspend? ==> sent == op)
                    && (op.Approve? ==> sent == op.(revision := sent.revision))
                    && (op.Reject? ==> sent == op.(revision := sent.revision))
                    && (op.Update? || op.Submit? || op.Cancel? ==> sent == op.(version := sent.version))
                    && (op.Approve? || op.Reject? ==> (current <==> sent.revision == rows[asked].version))
                    && (op.Update? || op.Submit? || op.Cancel? ==> (current <==> sent.version == rows[asked].version))
                    && (Answer(rows, step).Commit? ==> next == rows[asked := Answer(rows, step).row])
                    && (!Answer(rows, step).Commit? ==> next == rows))
            case Create(_, created, row) =>
              && (created !in rows && WellFormed(row) ==> next == rows[created := row])
              && (created in rows || !WellFormed(row) ==> next == rows)
  {
    hide Decide, SyncAll, WellFormed;
  }

  // ---------------------------------------------------------------- what readers see

  /** PlaylistService.liveSubmissions for a device in those groups: ready tells which media can play. */
  predicate Live(row: Submission, groups: set<Group>, ready: bool, now: int) {
    && row.status in PUBLISHABLE && row.period.Some?
    && row.period.value.startAt <= now < row.period.value.endAt
    && (row.targets == {} || row.targets * groups != {})
    && ready
  }

  predicate PlaysBefore(rows: Table, a: Id, b: Id)
    requires a in rows && rows[a].period.Some? && b in rows && rows[b].period.Some?
  {
    var x, y := rows[a], rows[b];
    || x.priority > y.priority
    || (x.priority == y.priority && x.period.value.startAt < y.period.value.startAt)
    || (x.priority == y.priority && x.period.value.startAt == y.period.value.startAt && a < b)
  }

  ghost predicate IsPlaylist(rows: Table, groups: set<Group>, ready: set<Id>, now: int, items: seq<Id>) {
    && (forall id :: id in items <==> id in rows && Live(rows[id], groups, id in ready, now))
    && (forall i, j :: 0 <= i < j < |items| ==> PlaysBefore(rows, items[i], items[j]))
  }

  /** The three totals of summary that are judged by the period. */
  predicate CountsAsPublished(row: Submission, now: int) {
    row.status in PUBLISHABLE && row.period.Some? && row.period.value.startAt <= now < row.period.value.endAt
  }

  predicate CountsAsScheduled(row: Submission, now: int) {
    row.status in {Approved, Scheduled} && row.period.Some? && now < row.period.value.startAt
  }

  predicate CountsAsEnded(row: Submission, now: int) {
    row.status == Ended || (row.status in PUBLISHABLE && row.period.Some? && row.period.value.endAt <= now)
  }

  datatype Summary = Summary(published: nat, scheduled: nat, ended: nat)

  function Summarize(rows: Table, scope: set<Id>, now: int): Summary {
    Summary(|set id | id in rows && id in scope && CountsAsPublished(rows[id], now)|,
            |set id | id in rows && id in scope && CountsAsScheduled(rows[id], now)|,
            |set id | id in rows && id in scope && CountsAsEnded(rows[id], now)|)
  }

  /** The totals count what the job would write if it ran now, except for a submission that is
      PUBLISHED before its start, which no request and no job run produces. */
  lemma CountsAreTimely(row: Submission, now: int)
    requires WellFormed(row)
    ensures CountsAsScheduled(row, now) <==> TimelyStatus(row, now) == Scheduled
    ensures CountsAsEnded(row, now) <==> TimelyStatus(row, now) == Ended
    ensures (CountsAsPublished(row, now) <==> TimelyStatus(row, now) == Published)
       <==> !(row.status == Published && now < row.period.value.startAt)
  {
  }

  /** What a playlist holds and in which order: the approved submissions within their period whose
      media can play and that are for everyone or for one of the device's groups, by priority, the
      higher first, then by start, the earlier first, then by id. */
  lemma PlaylistExactly(rows: Table, groups: set<Group>, ready: set<Id>, now: int, items: seq<Id>)
    ensures IsPlaylist(rows, groups, ready, now, items)
       <==> && (forall id :: id in items <==>
                  && id in rows && id in ready
                  && (rows[id].status == Approved || rows[id].status == Scheduled || rows[id].status == Published)
                  && rows[id].period.Some? && rows[id].period.value.startAt <= now < rows[id].period.value.endAt
                  && ((forall g :: g !in rows[id].targets) || exists g :: g in groups && g in rows[id].targets))
            && (forall i, j :: 0 <= i < j < |items| ==>
                  var x, y := rows[items[i]], rows[items[j]];
                  && x.priority >= y.priority
                  && (x.priority == y.priority ==> x.period.value.startAt <= y.period.value.startAt)
                  && (x.priority == y.priority && x.period.value.startAt == y.period.value.startAt ==>
                        items[i] < items[j]))
  {
    forall id | id in rows
      ensures rows[id].targets == {} <==> forall g :: g !in rows[id].targets
      ensures rows[id].targets * groups != {} <==> exists g :: g in groups && g in rows[id].targets
    {
      var both := rows[id].targets * groups;
      assert (forall g :: g !in rows[id].targets) ==> rows[id].targets == {};
      assert (forall g :: g !in both) ==> both == {};
      assert forall g :: g in groups && g in rows[id].targets ==> g in both;
    }
    assert forall i :: 0 <= i < |items| ==> items[i] in items;
  }

  lemma NextInPlaylist(rows: Table, groups: set<Group>, ready: set<Id>, now: int, a: seq<Id>, b: seq<Id>, k: nat)
    requires IsPlaylist(rows, groups, ready, now, a) && IsPlaylist(rows, groups, ready, now, b)
    requires k < |a| && k <= |b| && a[..k] == b[..k]
    ensures k < |b| && (a[k] == b[k] || PlaysBefore(rows, b[k], a[k]))
  {
    hide Live;
    var id := a[k];
    assert id in a;
    assert id in rows && Live(rows[id], groups, id in ready, now);
    assert id in b;
    var j :| 0 <= j < |b| && b[j] == a[k];
    assert forall i :: 0 <= i < k ==> a[i] == a[..k][i] == b[..k][i] == b[i];
    if j < k {
      assert false;
    }
  }

  /** A device has one playlist at a time. */
  lemma {:induction false} PlaylistIsUnique(rows: Table, groups: set<Group>, ready: set<Id>, now: int,
                                            a: seq<Id>, b: seq<Id>)
    requires IsPlaylist(rows, groups, ready, now, a) && IsPlaylist(rows, groups, ready, now, b)
    ensures a == b
  {
    var k := 0;
    while k < |a|
      invariant k <= |a| && k <= |b| && a[..k] == b[..k]
    {
      NextInPlaylist(rows, groups, ready, now, a, b, k);
      NextInPlaylist(rows, groups, ready, now, b, a, k);
      k := k + 1;
    }
    if k < |b| {
      NextInPlaylist(rows, groups, ready, now, b, a, k);
      assert false;
    }
  }

  /** The totals of summary, counted over the rows in scope. */
  lemma SummaryExactly(rows: Table, scope: set<Id>, now: int)
    ensures var approved := set id | && id in rows && id in scope && rows[id].period.Some?
                                     && (rows[id].status == Approved || rows[id].status == Scheduled
                                         || rows[id].status == Published);
            var summary := Summarize(rows, scope, now);
            && summary.published
               == |set id | id in approved && rows[id].period.value.startAt <= now < rows[id].period.value.endAt|
            && summary.scheduled
               == |set id | && id in approved && rows[id].status != Published
                            && now < rows[id].period.value.startAt|
            && summary.ended
               == |(set id | id in approved && rows[id].period.value.endAt <= now)
                   + (set id | id in rows && id in scope && rows[id].status == Ended)|
  {
    var approved := set id | && id in rows && id in scope && rows[id].period.Some?
                             && (rows[id].status == Approved || rows[id].status == Scheduled
                                 || rows[id].status == Published);
    assert (set id | id in approved && rows[id].period.value.startAt <= now < rows[id].period.value.endAt)
        == (set id | id in rows && id in scope && CountsAsPublished(rows[id], now));
    assert (set id | id in approved && rows[id].status != Published && now < rows[id].period.value.startAt)
        == (set id | id in rows && id in scope && CountsAsScheduled(rows[id], now));
    assert (set id | id in approved && rows[id].period.value.endAt <= now)
           + (set id | id in rows && id in scope && rows[id].status == Ended)
        == (set id | id in rows && id in scope && CountsAsEnded(rows[id], now));
  }

  /** A verdict tells the kind of an answer: two answers with the same verdict are both commits, or
      they are the same. */
  lemma VerdictTellsTheAnswer(outcome: Outcome, other: Outcome)
    ensures VerdictOf(outcome) == VerdictOf(other) <==> outcome == other || (outcome.Commit? && other.Commit?)
  {
  }

  // ---------------------------------------------------------------- the simulation

  /** row has been moved by the job, late is the same submission that no job has touched. */
  predicate Agree(row: Submission, late: Submission, now: int) {
    && row == late.(status := row.status, version := row.version)
    && ( || row.status == late.status
         || (&& late.period.Some?
             && ( || (row.status == Ended && late.status in PUBLISHABLE && late.period.value.endAt <= now)
                  || (row.status == Published && late.status in {Approved, Scheduled}
                      && late.period.value.startAt <= now)
                  || (row.status == Scheduled && late.status == Approved))))
  }

  ghost predicate AllAgree(rows: Table, late: Table, now: int) {
    rows.Keys == late.Keys && forall id :: id in rows ==> Agree(rows[id], late[id], now)
  }

  lemma AgreeLater(rows: Table, late: Table, now: int, later: int)
    requires AllAgree(rows, late, now) && now <= later
    ensures AllAgree(rows, late, later)
  {
  }

  lemma TimelyAgrees(row: Submission, late: Submission, at: int, version: int)
    requires WellFormed(row) && Agree(row, late, at)
    ensures Agree(row.(status := TimelyStatus(row, at), version := version), late, at)
  {
  }

  /** A job run keeps its rows in agreement with the untouched ones. */
  lemma JobAgrees(rows: Table, late: Table, at: int)
    requires AllWellFormed(rows) && AllAgree(rows, late, at)
    ensures AllAgree(SyncAll(rows, at), late, at)
  {
    JobKeepsWellFormed(rows, at);
    hide SyncAll, Agree, TimelyStatus;
    forall id | id in rows
      ensures Agree(SyncAll(rows, at)[id], late[id], at)
    {
      SyncIsTimely(rows, at, id);
      TimelyAgrees(rows[id], late[id], at, SyncAll(rows, at)[id].version);
    }
  }

  /** Every request gets the same verdict on both rows and leaves rows that agree. */
  lemma RequestsAgree(row: Submission, late: Submission, op: Operation, current: bool, at: int)
    requires WellFormed(row) && WellFormed(late) && Agree(row, late, at)
    ensures var outcome, other := Decide(Stamped(op, row, current), row, at),
        Decide(Stamped(op, late, current), late, at);
            && VerdictOf(outcome) == VerdictOf(other)
            && (outcome.Commit? ==> Agree(outcome.row, other.row, at))
  {
    hide ScheduleValid, ChangedColumns;
  }

  lemma StepAgrees(rows: Table, late: Table, step: Step)
    requires AllWellFormed(rows) && AllWellFormed(late) && AllAgree(rows, late, step.at)
    ensures step.Job? ==> AllAgree(Apply(rows, step), late, step.at)
    ensures !step.Job? ==> AllAgree(Apply(rows, step), Apply(late, step), step.at)
    ensures step.Ask? ==> VerdictOf(Answer(rows, step)) == VerdictOf(Answer(late, step))
  {
    match step
    case Job(at) => JobAgrees(rows, late, at);
    case Ask(at, id, op, current) =>
      if id in rows { RequestsAgree(rows[id], late[id], op, current, at); }
      hide Decide;
    case Create(_, _, _) =>
  }

  lemma {:induction false} RunsAgree(rows: Table, late: Table, steps: seq<Step>, from: int, to: int)
    requires AllWellFormed(rows) && AllWellFormed(late) && AllAgree(rows, late, from)
    requires Chronological(steps) && from <= to && forall k :: 0 <= k < |steps| ==> from <= steps[k].at <= to
    ensures AllAgree(Final(rows, steps), Final(late, WithoutJob(steps)), to)
    ensures Verdicts(rows, steps) == Verdicts(late, WithoutJob(steps))
    decreases |steps|
  {
    hide Apply, AllAgree, AllWellFormed, VerdictOf, Answer;
    if steps == [] {
      AgreeLater(rows, late, from, to);
    } else {
      var step, rest := steps[0], steps[1..];
      AgreeLater(rows, late, from, step.at);
      StepAgrees(rows, late, step);
      if step.Job? {
        RunsAgree(Apply(rows, step), late, rest, step.at, to);
        assert WithoutJob(steps) == WithoutJob(rest);
        assert Verdicts(rows, steps) == Verdicts(Apply(rows, step), rest);
      } else {
        RunsAgree(Apply(rows, step), Apply(late, step), rest, step.at, to);
        assert WithoutJob(steps)[0] == step && WithoutJob(steps)[1..] == WithoutJob(rest);
      }
    }
  }

  /** What readers ask of one row has the same answer on both rows. */
  lemma ReadsAgree(row: Submission, late: Submission, now: int)
    requires WellFormed(row) && WellFormed(late) && Agree(row, late, now)
    ensures forall groups, ready :: Live(row, groups, ready, now) <==> Live(late, groups, ready, now)
    ensures CountsAsPublished(row, now) <==> CountsAsPublished(late, now)
    ensures CountsAsScheduled(row, now) <==> CountsAsScheduled(late, now)
    ensures CountsAsEnded(row, now) <==> CountsAsEnded(late, now)
    ensures row.priority == late.priority && row.period == late.period
  {
  }

  lemma ReadersAgree(rows: Table, late: Table, now: int)
    requires AllWellFormed(rows) && AllWellFormed(late) && AllAgree(rows, late, now)
    ensures forall groups, ready, items ::
              IsPlaylist(rows, groups, ready, now, items) <==> IsPlaylist(late, groups, ready, now, items)
    ensures forall scope :: Summarize(rows, scope, now) == Summarize(late, scope, now)
  {
    hide Agree, WellFormed, CountsAsPublished, CountsAsScheduled, CountsAsEnded;
    forall id | id in rows
      ensures rows[id].priority == late[id].priority && rows[id].period == late[id].period
      ensures forall groups, ready :: Live(rows[id], groups, ready, now) <==> Live(late[id], groups, ready, now)
      ensures CountsAsPublished(rows[id], now) <==> CountsAsPublished(late[id], now)
      ensures CountsAsScheduled(rows[id], now) <==> CountsAsScheduled(late[id], now)
      ensures CountsAsEnded(rows[id], now) <==> CountsAsEnded(late[id], now)
    {
      ReadsAgree(rows[id], late[id], now);
    }
    forall scope
      ensures Summarize(rows, scope, now) == Summarize(late, scope, now)
    {
      assert (set id | id in rows && id in scope && CountsAsPublished(rows[id], now))
          == (set id | id in late && id in scope && CountsAsPublished(late[id], now));
      assert (set id | id in rows && id in scope && CountsAsScheduled(rows[id], now))
          == (set id | id in late && id in scope && CountsAsScheduled(late[id], now));
      assert (set id | id in rows && id in scope && CountsAsEnded(rows[id], now))
          == (set id | id in late && id in scope && CountsAsEnded(late[id], now));
    }
  }

  /** Erasing all job steps from a chronological run leaves every verdict unchanged, and at any
      later time every playlist of every device, the totals of every scope, and every column of
      every row other than its version and a status that the job may move. */
  lemma JobIsInvisible(rows: Table, steps: seq<Step>, now: int)
    requires AllWellFormed(rows) && Chronological(steps) && forall k :: 0 <= k < |steps| ==> steps[k].at <= now
    ensures Verdicts(rows, steps) == Verdicts(rows, WithoutJob(steps))
    ensures forall groups, ready, items ::
              IsPlaylist(Final(rows, steps), groups, ready, now, items)
              <==> IsPlaylist(Final(rows, WithoutJob(steps)), groups, ready, now, items)
    ensures forall scope ::
              Summarize(Final(rows, steps), scope, now) == Summarize(Final(rows, WithoutJob(steps)), scope, now)
    ensures AllAgree(Final(rows, steps), Final(rows, WithoutJob(steps)), now)
  {
    var from := if steps == [] then now else steps[0].at;
    assert AllAgree(rows, rows, from);
    hide Apply, AllAgree, AllWellFormed, IsPlaylist, Summarize;
    RunsAgree(rows, rows, steps, from, now);
    FinalIsWellFormed(rows, steps);
    FinalIsWellFormed(rows, WithoutJob(steps));
    ReadersAgree(Final(rows, steps), Final(rows, WithoutJob(steps)), now);
  }

  lemma {:induction false} FinalIsWellFormed(rows: Table, steps: seq<Step>)
    requires AllWellFormed(rows)
    ensures AllWellFormed(Final(rows, steps))
    decreases |steps|
  {
    hide Apply, AllWellFormed;
    if steps != [] { FinalIsWellFormed(Apply(rows, steps[0]), steps[1..]); }
  }

  // ---------------------------------------------------------------- when a job run can be noticed

  /** A request that read its clock before the job did, and before a start or an end that the job acted on. */
  predicate Straddles(row: Submission, job: int, ask: int)
    requires WellFormed(row)
  {
    || (row.status in {Approved, Scheduled} && ask < row.period.value.startAt <= job)
    || (row.status in PUBLISHABLE && ask < row.period.value.endAt <= job)
  }

  /** The row agrees with what the job made of it at the time of the request, exactly when no start
      or end lies between their clock readings. */
  lemma AgreesUnlessStraddled(row: Submission, moved: Submission, job: int, ask: int)
    requires WellFormed(row) && moved == row.(status := TimelyStatus(row, job), version := moved.version)
    ensures WellFormed(moved)
    ensures Agree(moved, row, ask) <==> !Straddles(row, job, ask)
  {
  }

  ghost predicate SameVerdicts(row: Submission, moved: Submission, ask: int)
    requires WellFormed(row) && WellFormed(moved)
  {
    forall op, current ::
      VerdictOf(Decide(Stamped(op, row, current), row, ask))
          == VerdictOf(Decide(Stamped(op, moved, current), moved, ask))
  }

  /** A run of the job at one time changes the verdict of some request that took another time,
      exactly when a start or an end of the submission lies between the two. */
  lemma JobIsNoticedExactly(row: Submission, moved: Submission, job: int, ask: int)
    requires WellFormed(row) && moved == row.(status := TimelyStatus(row, job), version := moved.version)
    ensures WellFormed(moved) && (SameVerdicts(row, moved, ask) <==> !Straddles(row, job, ask))
  {
    AgreesUnlessStraddled(row, moved, job, ask);
    if Straddles(row, job, ask) {
      if row.status in PUBLISHABLE && ask < row.period.value.endAt <= job {
        EndIsNoticed(row, moved, job, ask);
      } else {
        StartIsNoticed(row, moved, job, ask);
      }
    } else {
      hide Straddles, Agree, Decide, VerdictOf, Stamped;
      forall op, current
        ensures VerdictOf(Decide(Stamped(op, row, current), row, ask))
            == VerdictOf(Decide(Stamped(op, moved, current), moved, ask))
      {
        RequestsAgree(moved, row, op, current, ask);
      }
    }
  }

  /** A reviewer cannot suspend what the job has ended. */
  lemma EndIsNoticed(row: Submission, moved: Submission, job: int, ask: int)
    requires WellFormed(row) && moved == row.(status := TimelyStatus(row, job), version := moved.version)
    requires row.status in PUBLISHABLE && ask < row.period.value.endAt <= job
    ensures WellFormed(moved) && !SameVerdicts(row, moved, ask)
  {
    hide DecideUpdate, DecideSubmit, DecideCancel, DecideApprove, DecideReject;
    var op := Suspend(row.requester, true);
    assert VerdictOf(Decide(Stamped(op, row, true), row, ask)) == Done;
    assert VerdictOf(Decide(Stamped(op, moved, true), moved, ask)) == Conflicting;
  }

  /** The requester cannot cancel what the job has published. */
  lemma StartIsNoticed(row: Submission, moved: Submission, job: int, ask: int)
    requires WellFormed(row) && moved == row.(status := TimelyStatus(row, job), version := moved.version)
    requires row.status in {Approved, Scheduled} && ask < row.period.value.startAt <= job < row.period.value.endAt
    ensures WellFormed(moved) && !SameVerdicts(row, moved, ask)
  {
    hide DecideUpdate, DecideSubmit, DecideSuspend, DecideApprove, DecideReject;
    var op := Cancel(row.requester, 0);
    assert VerdictOf(Decide(Stamped(op, row, true), row, ask)) == Done;
    assert VerdictOf(Decide(Stamped(op, moved, true), moved, ask)) == Conflicting;
  }

  lemma JobThenAsk(rows: Table, job: Step, ask: Step)
    requires AllWellFormed(rows) && job.Job? && ask.Ask?
    ensures Verdicts(rows, [job, ask]) == [VerdictOf(Answer(Apply(rows, job), ask))]
    ensures Verdicts(rows, WithoutJob([job, ask])) == [VerdictOf(Answer(rows, ask))]
  {
    hide Apply, VerdictOf, Answer;
    assert [job, ask][1..] == [ask] && [ask][1..] == [];
    assert WithoutJob([job, ask]) == [ask] by { assert WithoutJob([ask]) == [ask] + WithoutJob([]); }
    assert Verdicts(Apply(rows, job), [ask]) == [VerdictOf(Answer(Apply(rows, job), ask))];
    assert Verdicts(rows, [ask]) == [VerdictOf(Answer(rows, ask))];
  }

  /** The clock matters: a cancellation that took its time before the job's is refused because the
      job published the submission, and would be accepted without the job. */
  lemma StaleClockSeesTheJob(row: Submission, id: Id)
    requires WellFormed(row) && row.status == Scheduled
    ensures var start := row.period.value.startAt;
            var steps := [Job(start), Ask(start - 1, id, Cancel(row.requester, 0), true)];
            && AllWellFormed(map[id := row])
            && Verdicts(map[id := row], steps) == [Conflicting]
            && Verdicts(map[id := row], WithoutJob(steps)) == [Done]
  {
    hide SyncAll, Verdicts, WithoutJob, Agree, Moves, Moved, MoveAll, ScheduleValid, ChangedColumns;
    var rows: Table := map[id := row];
    var start := row.period.value.startAt;
    SyncIsTimely(rows, start, id);
    JobThenAsk(rows, Job(start), Ask(start - 1, id, Cancel(row.requester, 0), true));
  }
}
