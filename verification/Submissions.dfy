/** Submissions, their reviews and the job that moves their statuses: submission-rules.ts,
    submissions.service.ts, reviews.service.ts and submission-status.job.ts. */
module Submissions {
  import opened Wrappers
  import opened SeoulTime

  type Id = int
  type Group = int
  type Table = map<Id, Submission>

  datatype Status =
    | Draft | PendingReview | Rejected | Approved | Scheduled | Published | Ended | Suspended | Canceled | Archived

  datatype Kind = Poster | EventBanner | Story
  {
    /** Posters and event banners request their period; a story gets it on approval. */
    predicate RequestsPeriod() { this != Story }

    predicate Resubmittable() { this != Story }
  }

  datatype Period = Period(startAt: int, endAt: int)

  /** columns and detail are what the kind resolves from the input. */
  datatype Submission = Submission(
    kind: Kind,
    requester: int,
    columns: map<string, string>,
    detail: string,
    targets: set<Group>,
    period: Option<Period>,
    storyNumber: Option<int>,
    status: Status,
    priority: int,
    version: int,
    submittedAt: int,
    createdAt: int)

  const STORY_DISPLAY_DAYS := 2

  const EDITABLE: set<Status> := {Draft, PendingReview, Rejected, Approved, Scheduled, Suspended}
  const REAPPROVAL: set<Status> := {Approved, Scheduled}
  const RETURNED: set<Status> := {Rejected, Suspended}
  const SUBMITTABLE: set<Status> := {Draft, Rejected, Suspended}
  const SUSPENDABLE: set<Status> := {Approved, Scheduled, Published}
  const PUBLISHABLE: set<Status> := {Approved, Scheduled, Published}

  /** What the table's CHECK constraints keep. */
  predicate WellFormed(row: Submission) {
    && (row.period.Some? ==> row.period.value.startAt < row.period.value.endAt)
    && (row.period.None? ==> row.kind == Story && row.status in {Draft, PendingReview, Rejected, Canceled, Archived})
  }

  // ---------------------------------------------------------------- rules

  predicate CanCancel(row: Submission, now: int) {
    || row.status in {Draft, PendingReview, Rejected}
    || (row.status in {Approved, Scheduled} && row.period.Some? && now < row.period.value.startAt)
  }

  predicate HasStartedPublishing(row: Submission, now: int) {
    || row.status == Published
    || (row.status in {Approved, Scheduled} && row.period.Some? && row.period.value.startAt <= now)
  }

  predicate ScheduleValid(kind: Kind, period: Option<Period>, now: int) {
    match kind
    case Story => true
    case Poster => period.Some? && ValidatePoster(period.value.startAt, period.value.endAt, now).None()
    case EventBanner => period.Some? && ValidateEventBanner(period.value.startAt, period.value.endAt, now).None()
  }

  // ---------------------------------------------------------------- requests

  /** An edit after its content was resolved: contentErrors tells whether resolving or the field
      checks found errors, unavailable are the groups that may not be newly chosen. */
  datatype Edit = Edit(
    columns: map<string, string>,
    detail: string,
    startAt: Option<int>,
    endAt: Option<int>,
    targets: Option<set<Group>>,
    contentErrors: bool,
    unavailable: set<Group>)

  datatype Operation =
    | Update(user: int, version: int, edit: Edit)
    | Submit(user: int, version: int)
    | Cancel(user: int, version: int)
    | Approve(revision: int, mediaReady: bool, storyNumber: int)
    | Reject(revision: int)
    | Suspend(user: int, reviewer: bool)

  datatype Outcome =
    | Commit(row: Submission)
    | Unchanged
    | NotFound
    | Conflict
    | NotResubmittable
    | Invalid
    | Forbidden

  /** The entries of next that differ from the current columns. */
  function ChangedColumns(current: map<string, string>, next: map<string, string>): map<string, string> {
    map key | key in next && !(key in current && current[key] == next[key]) :: next[key]
  }

  function NextPeriod(row: Submission, edit: Edit): Option<Period> {
    if row.period.None? then None
    else Some(Period(edit.startAt.GetOr(row.period.value.startAt), edit.endAt.GetOr(row.period.value.endAt)))
  }

  /** A kind that gets its period on approval accepts neither a period nor targets. */
  predicate Unaccepted(kind: Kind, edit: Edit) {
    kind == Story && (edit.startAt.Some? || edit.endAt.Some? || (edit.targets.Some? && edit.targets.value != {}))
  }

  function DecideUpdate(row: Submission, user: int, version: int, edit: Edit, now: int): Outcome {
    if row.requester != user then NotFound
    else if row.version != version then Conflict
    else if row.status !in EDITABLE || HasStartedPublishing(row, now) then Conflict
    else if !row.kind.Resubmittable() && row.status in RETURNED then NotResubmittable
    else
      var errors := edit.contentErrors || Unaccepted(row.kind, edit);
      var columns := ChangedColumns(row.columns, edit.columns);
      var period := NextPeriod(row, edit);
      var periodChanged := period != row.period;
      var groupsChanged := edit.targets.Some? && edit.targets.value != row.targets;
      if columns == map[] && !periodChanged && edit.detail == row.detail && !groupsChanged then
        if errors then Invalid else Unchanged
      else
        var needsReapproval := row.status in REAPPROVAL;
        if || errors
           || ((periodChanged || needsReapproval) && !ScheduleValid(row.kind, period, now))
           || (groupsChanged && (edit.targets.value - row.targets) * edit.unavailable != {})
        then Invalid
        else Commit(row.(
          columns := row.columns + columns,
          detail := edit.detail,
          period := period,
          targets := if groupsChanged then edit.targets.value else row.targets,
          status := if needsReapproval then PendingReview else row.status,
          submittedAt := if needsReapproval then now else row.submittedAt,
          version := row.version + 1))
  }

  function DecideSubmit(row: Submission, user: int, version: int, now: int): Outcome {
    if row.requester != user then NotFound
    else if row.version != version then Conflict
    else if row.status !in SUBMITTABLE then Conflict
    else if !row.kind.Resubmittable() then NotResubmittable
    else if !ScheduleValid(row.kind, row.period, now) then Invalid
    else Commit(row.(status := PendingReview, submittedAt := now, version := row.version + 1))
  }

  function DecideCancel(row: Submission, user: int, version: int, now: int): Outcome {
    if row.requester != user then NotFound
    else if row.version != version then Conflict
    else if !CanCancel(row, now) then Conflict
    else Commit(row.(status := Canceled, version := row.version + 1))
  }

  function ApprovedPeriod(row: Submission, now: int): Period
    requires WellFormed(row)
  {
    if row.kind.RequestsPeriod() then row.period.value else Period(now, now + STORY_DISPLAY_DAYS * DAY_MS)
  }

  function DecideApprove(row: Submission, revision: int, mediaReady: bool, storyNumber: int, now: int): Outcome
    requires WellFormed(row)
  {
    if row.version != revision || row.status != PendingReview then Conflict
    else
      var period := ApprovedPeriod(row, now);
      if period.endAt <= now || !mediaReady then Conflict
      else Commit(row.(
        status := if period.startAt <= now then Published else Scheduled,
        period := Some(period),
        storyNumber := if row.kind == Story then Some(storyNumber) else row.storyNumber,
        version := row.version + 1))
  }

  function DecideReject(row: Submission, revision: int): Outcome {
    if row.version != revision || row.status != PendingReview then Conflict
    else Commit(row.(status := Rejected, version := row.version + 1))
  }

  function DecideSuspend(row: Submission, user: int, reviewer: bool, now: int): Outcome
    requires WellFormed(row)
  {
    if !reviewer && row.requester != user then NotFound
    else if !reviewer && row.kind != Story && row.kind != EventBanner then Forbidden
    else if row.status !in SUSPENDABLE || row.period.value.endAt <= now then Conflict
    else Commit(row.(status := Suspended, version := row.version + 1))
  }

  function Decide(op: Operation, row: Submission, now: int): Outcome
    requires WellFormed(row)
  {
    match op
    case Update(user, version, edit) => DecideUpdate(row, user, version, edit, now)
    case Submit(user, version) => DecideSubmit(row, user, version, now)
    case Cancel(user, version) => DecideCancel(row, user, version, now)
    case Approve(revision, mediaReady, storyNumber) => DecideApprove(row, revision, mediaReady, storyNumber, now)
    case Reject(revision) => DecideReject(row, revision)
    case Suspend(user, reviewer) => DecideSuspend(row, user, reviewer, now)
  }

  /** Nothing that a request commits breaks the constraints of the table. */
  lemma CommitIsWellFormed(op: Operation, row: Submission, now: int)
    requires WellFormed(row) && Decide(op, row, now).Commit?
    ensures var next := Decide(op, row, now).row;
            && WellFormed(next) && next.version == row.version + 1
            && (next.period.Some? ==> next.period.value.startAt < next.period.value.endAt)
            && (next.period.None? ==> next.kind == Story)
            && (next.status == Approved || next.status == Scheduled || next.status == Published ==> next.period.Some?)
            && (next.status == Published ==> next.period.value.startAt <= now)
  {
    hide AddMonthsInSeoul, IsSeoulMidnight;
  }

  /** The status changes that each request may make. */
  function Edges(op: Operation): set<(Status, Status)> {
    match op
    case Update(_, _, _) =>
      {(Draft, Draft), (PendingReview, PendingReview), (Rejected, Rejected), (Suspended, Suspended),
       (Approved, PendingReview), (Scheduled, PendingReview)}
    case Submit(_, _) => {(Draft, PendingReview), (Rejected, PendingReview), (Suspended, PendingReview)}
    case Cancel(_, _) =>
      {(Draft, Canceled), (PendingReview, Canceled), (Rejected, Canceled), (Approved, Canceled), (Scheduled, Canceled)}
    case Approve(_, _, _) => {(PendingReview, Scheduled), (PendingReview, Published)}
    case Reject(_) => {(PendingReview, Rejected)}
    case Suspend(_, _) => {(Approved, Suspended), (Scheduled, Suspended), (Published, Suspended)}
  }

  /** A commit follows an edge of its request. Only an edit changes content, only an approval sets a
      story's period and number, and only a new request for review sets its time. */
  lemma DecisionsFollowTheGraph(op: Operation, row: Submission, now: int)
    requires WellFormed(row) && Decide(op, row, now).Commit?
    ensures var next := Decide(op, row, now).row;
            && (row.status, next.status) in Edges(op)
            && next.kind == row.kind && next.requester == row.requester && next.priority == row.priority
            && (!op.Update? ==> next.columns == row.columns && next.detail == row.detail && next.targets == row.targets)
            && (!op.Update? && !(op.Approve? && row.kind == Story) ==>
                  next.period == row.period && next.storyNumber == row.storyNumber)
            && (next.submittedAt
                == if next.status == PendingReview && row.status != PendingReview then now else row.submittedAt)
  {
    hide ScheduleValid, ChangedColumns;
  }

  /** Who must ask for a commit, and with which version. */
  lemma CommitNeeds(op: Operation, row: Submission, now: int)
    requires WellFormed(row) && Decide(op, row, now).Commit?
    ensures op.Update? || op.Submit? || op.Cancel? ==> op.user == row.requester && op.version == row.version
    ensures op.Approve? || op.Reject? ==> op.revision == row.version
    ensures op.Suspend? ==> op.reviewer || (op.user == row.requester && row.kind in {Story, EventBanner})
  {
    hide ScheduleValid, ChangedColumns;
  }

  /** An approved submission is shown at once or scheduled, by its period, which has not ended; a
      story is shown for two days from its approval under its new number. */
  lemma ApprovalSetsThePeriod(row: Submission, revision: int, mediaReady: bool, storyNumber: int, now: int)
    requires WellFormed(row) && DecideApprove(row, revision, mediaReady, storyNumber, now).Commit?
    ensures var next := DecideApprove(row, revision, mediaReady, storyNumber, now).row;
            && mediaReady && next.period.Some? && now < next.period.value.endAt
            && (next.status == Published <==> next.period.value.startAt <= now)
            && (next.status == Scheduled <==> now < next.period.value.startAt)
            && (row.kind == Story ==>
                  next.period == Some(Period(now, now + 2 * DAY_MS)) && next.storyNumber == Some(storyNumber))
  {
  }

  /** Once its period has begun, an approved submission can only be suspended, and once the period
      is over nothing can be done to it, whatever status the job has left it in. */
  lemma StartedOnlySuspends(op: Operation, row: Submission, now: int)
    requires WellFormed(row) && row.status in PUBLISHABLE + {Ended} && row.period.value.startAt <= now
    ensures Decide(op, row, now).Commit? ==>
              op.Suspend? && now < row.period.value.endAt && row.status != Ended
                  && Decide(op, row, now).row.status == Suspended
  {
    hide ScheduleValid, ChangedColumns;
  }

  /** Ended, canceled and archived submissions accept no request. */
  lemma FinalIsFinal(op: Operation, row: Submission, now: int)
    requires WellFormed(row) && row.status in {Ended, Canceled, Archived}
    ensures !Decide(op, row, now).Commit?
  {
    hide ScheduleValid, ChangedColumns;
  }

  // ---------------------------------------------------------------- new submissions

  /** A new submission after its content was resolved, with errors as in Edit. */
  datatype Form = Form(
    kind: Kind,
    requester: int,
    columns: map<string, string>,
    detail: string,
    startAt: Option<int>,
    endAt: Option<int>,
    targets: set<Group>,
    contentErrors: bool,
    unavailable: set<Group>)
  {
    /** The kinds that request their period must name both ends, which the input checks see to. */
    predicate Complete() { kind.RequestsPeriod() ==> startAt.Some? && endAt.Some? }
  }

  datatype Creation = Created(row: Submission) | Unfit | OverLimit

  /** How many submissions of a kind a user may make in one Seoul day. */
  function DailyLimit(kind: Kind): Option<nat> {
    match kind
    case Poster => None
    case EventBanner => Some(3)
    case Story => Some(5)
  }

  function MadeSince(rows: Table, user: int, kind: Kind, since: int): set<Id> {
    set id | id in rows && rows[id].requester == user && rows[id].kind == kind && rows[id].createdAt >= since
  }

  predicate LimitReached(rows: Table, user: int, kind: Kind, now: int) {
    DailyLimit(kind).Some? && |MadeSince(rows, user, kind, StartOfSeoulDay(SeoulDate(now)))| >= DailyLimit(kind).value
  }

  function DecideCreate(rows: Table, form: Form, now: int): Creation
    requires form.Complete()
  {
    var period := if form.kind.RequestsPeriod() then Some(Period(form.startAt.value, form.endAt.value)) else None;
    var targets := if form.kind == Story then {} else form.targets;
    var unaccepted :=
      form.kind == Story && (form.startAt.Some? || form.endAt.Some? || form.targets != {});
    if unaccepted || !ScheduleValid(form.kind, period, now) || form.contentErrors || targets * form.unavailable != {}
    then Unfit
    else if LimitReached(rows, form.requester, form.kind, now) then OverLimit
    else Created(Submission(form.kind, form.requester, form.columns, form.detail, targets, period, None,
                            PendingReview, 0, 1, now, now))
  }

  lemma NewIsWellFormed(rows: Table, form: Form, now: int)
    requires form.Complete() && DecideCreate(rows, form, now).Created?
    ensures var row := DecideCreate(rows, form, now).row; WellFormed(row) && row.status == PendingReview
  {
    hide AddMonthsInSeoul, IsSeoulMidnight, LimitReached;
  }

  // ---------------------------------------------------------------- reviews

  datatype Decision = ApprovedIt | RejectedIt | SuspendedIt

  /** revision is the version that the decision was made on. */
  datatype Review = Review(revision: int, decision: Decision, reviewedAt: int)

  function ReviewOf(op: Operation, row: Submission, now: int): seq<Review> {
    match op
    case Approve(_, _, _) => [Review(row.version, ApprovedIt, now)]
    case Reject(_) => [Review(row.version, RejectedIt, now)]
    case Suspend(_, _) => [Review(row.version, SuspendedIt, now)]
    case _ => []
  }

  function ReviewsOf(reviews: map<Id, seq<Review>>, id: Id): seq<Review> {
    if id in reviews then reviews[id] else []
  }

  // ---------------------------------------------------------------- the status job

  /** Which rows the bulk update to that status selects. */
  predicate Moves(row: Submission, to: Status, now: int) {
    && row.period.Some?
    && match to
       case Ended => row.status in {Approved, Scheduled, Published} && row.period.value.endAt <= now
       case Published => row.status in {Approved, Scheduled} && row.period.value.startAt <= now < row.period.value.endAt
       case Scheduled => row.status == Approved && now < row.period.value.startAt
       case _ => false
  }

  function Moved(row: Submission, to: Status, now: int): Submission {
    if Moves(row, to, now) then row.(status := to, version := row.version + 1) else row
  }

  function MoveAll(rows: Table, to: Status, now: int): Table {
    map id | id in rows :: Moved(rows[id], to, now)
  }

  function SyncAll(rows: Table, now: int): Table {
    MoveAll(MoveAll(MoveAll(rows, Ended, now), Published, now), Scheduled, now)
  }

  /** The status that the period gives to an approved submission at that time. */
  function TimelyStatus(row: Submission, now: int): Status {
    if row.status !in PUBLISHABLE || row.period.None? then row.status
    else if row.period.value.endAt <= now then Ended
    else if row.period.value.startAt <= now then Published
    else if row.status == Approved then Scheduled else row.status
  }

  /** The three moves bring every row to the status of its period in one run, and touch a row at most once. */
  lemma SyncIsTimely(rows: Table, now: int, id: Id)
    requires id in rows && WellFormed(rows[id])
    ensures id in SyncAll(rows, now)
    ensures var status := TimelyStatus(rows[id], now);
            SyncAll(rows, now)[id]
              == if status == rows[id].status then rows[id]
                 else rows[id].(status := status, version := rows[id].version + 1)
  {
  }

  /** Running the job again at the same time changes nothing. */
  lemma SyncIsIdempotent(rows: Table, now: int)
    requires forall id :: id in rows ==> WellFormed(rows[id])
    ensures SyncAll(SyncAll(rows, now), now) == SyncAll(rows, now)
  {
    var once, twice := SyncAll(rows, now), SyncAll(SyncAll(rows, now), now);
    assert once.Keys == rows.Keys && twice.Keys == once.Keys;
    hide SyncAll;
    forall id | id in rows
      ensures twice[id] == once[id]
    {
      SyncIsTimely(rows, now, id);
      SyncIsTimely(once, now, id);
    }
  }

  // ---------------------------------------------------------------- the tables

  class Database {
    var rows: Table
    var reviews: map<Id, seq<Review>>
    var audit: seq<(Id, Status)>

    constructor ()
      ensures rows == map[] && reviews == map[] && audit == []
    {
      rows, reviews, audit := map[], map[], [];
    }

    /** The loop of update that collects the changed columns. */
    static method CollectChanges(current: map<string, string>, next: map<string, string>)
      returns (changes: map<string, string>)
      ensures changes == ChangedColumns(current, next)
    {
      changes := map[];
      var todo := next.Keys;
      while todo != {}
        invariant todo <= next.Keys
        invariant changes == map key | key in ChangedColumns(current, next) && key !in todo :: next[key]
        decreases |todo|
      {
        var key :| key in todo;
        if !(key in current && current[key] == next[key]) {
          changes := changes[key := next[key]];
        }
        todo := todo - {key};
      }
    }

    /** create, in the transaction that holds the lock of its user and kind; id is the generated key. */
    method Create(id: Id, form: Form, now: int) returns (creation: Creation)
      requires form.Complete() && id !in rows
      modifies this`rows
      ensures creation == DecideCreate(old(rows), form, now)
      ensures rows == if creation.Created? then old(rows)[id := creation.row] else old(rows)
    {
      creation := DecideCreate(rows, form, now);
      if creation.Created? {
        rows := rows[id := creation.row];
      }
    }

    /** Write a decided row if nobody changed the row since it was read, with its review. */
    method ApplyTransition(id: Id, current: Submission, op: Operation, now: int) returns (outcome: Outcome)
      requires WellFormed(current)
      modifies this`rows, this`reviews
      ensures outcome == (var decided := Decide(op, current, now);
                          if decided.Commit? && !(id in old(rows) && old(rows)[id].version == current.version)
                          then Conflict else decided)
      ensures rows == if outcome.Commit? then old(rows)[id := outcome.row] else old(rows)
      ensures reviews == if outcome.Commit?
                         then old(reviews)[id := ReviewsOf(old(reviews), id) + ReviewOf(op, current, now)]
                         else old(reviews)
    {
      outcome := Decide(op, current, now);
      if outcome.Commit? {
        if id !in rows || rows[id].version != current.version {
          return Conflict;
        }
        rows := rows[id := outcome.row];
        var history := if id in reviews then reviews[id] else [];
        reviews := reviews[id := history + ReviewOf(op, current, now)];
      }
    }

    /** One bulk move, with an audit row for every submission that it moved. */
    method Move(to: Status, now: int) returns (count: nat)
      requires to in {Ended, Published, Scheduled}
      modifies this`rows, this`audit
      ensures rows == MoveAll(old(rows), to, now)
      ensures count == |set id | id in old(rows) && Moves(old(rows)[id], to, now)|
      ensures |audit| == |old(audit)| + count && audit[..|old(audit)|] == old(audit)
      ensures forall id :: (id in old(rows) && Moves(old(rows)[id], to, now)) <==> (id, to) in audit[|old(audit)|..]
    {
      var moved := set id | id in rows && Moves(rows[id], to, now);
      rows := MoveAll(rows, to, now);
      count := |moved|;
      var todo := moved;
      while todo != {}
        invariant rows == MoveAll(old(rows), to, now)
        invariant todo <= moved && |audit| == |old(audit)| + count - |todo|
        invariant audit[..|old(audit)|] == old(audit)
        invariant forall id :: id in moved - todo <==> (id, to) in audit[|old(audit)|..]
        decreases |todo|
      {
        assert (forall id :: id !in todo) ==> todo == {};
        var id :| id in todo;
        ghost var before := audit;
        audit := audit + [(id, to)];
        assert audit[|old(audit)|..] == before[|old(audit)|..] + [(id, to)];
        todo := todo - {id};
      }
    }

    /** SubmissionStatusJob.sync: ended first, then published, then scheduled. */
    method Sync(now: int) returns (ended: nat, published: nat, scheduled: nat)
      modifies this`rows, this`audit
      ensures rows == SyncAll(old(rows), now)
      ensures |audit| == |old(audit)| + ended + published + scheduled
    {
      ended := Move(Ended, now);
      published := Move(Published, now);
      scheduled := Move(Scheduled, now);
    }
  }
}
