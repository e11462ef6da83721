/** Which answer every request about a submission gets, stated on the request and the stored row. */
module SubmissionRules {
  import opened Wrappers
  import opened SeoulTime
  import opened Submissions

  /** A requested period ends in the future and after its start. A poster's lasts at most three
      months, an event banner's is made of at most three whole Seoul days. */
  lemma ScheduleExactly(kind: Kind, startAt: int, endAt: int, now: int)
    ensures ScheduleValid(Story, None, now) && ScheduleValid(Story, Some(Period(startAt, endAt)), now)
    ensures kind != Story ==> !ScheduleValid(kind, None, now)
    ensures ScheduleValid(Poster, Some(Period(startAt, endAt)), now)
       <==> startAt < endAt && now < endAt && endAt <= AddMonthsInSeoul(startAt, 3)
    ensures ScheduleValid(EventBanner, Some(Period(startAt, endAt)), now)
       <==> && startAt < endAt && now < endAt && endAt - startAt <= 3 * 86_400_000
            && startAt == StartOfSeoulDay(SeoulDate(startAt)) && endAt == StartOfSeoulDay(SeoulDate(endAt))
  {
    PosterErrorsExactly(startAt, endAt, now);
    EventBannerErrorsExactly(startAt, endAt, now);
    hide AddMonthsInSeoul, IsSeoulMidnight, StartOfSeoulDay, SeoulDate, ValidatePoster, ValidateEventBanner;
  }

  // ---------------------------------------------------------------- edits

  /** The owner may edit this version of the row now. */
  ghost predicate MayEdit(row: Submission, user: int, version: int, now: int) {
    && row.requester == user && row.version == version
    && row.status != Published && row.status != Ended && row.status != Canceled && row.status != Archived
    && !(row.status in {Approved, Scheduled} && row.period.Some? && row.period.value.startAt <= now)
    && !(row.kind == Story && row.status in {Rejected, Suspended})
  }

  ghost predicate SendsNewPeriod(row: Submission, edit: Edit) {
    row.period.Some? &&
    ( || (edit.startAt.Some? && edit.startAt.value != row.period.value.startAt)
      || (edit.endAt.Some? && edit.endAt.value != row.period.value.endAt))
  }

  /** Something that the edit sends differs from what is stored. */
  ghost predicate SendsNews(row: Submission, edit: Edit) {
    || (exists key :: key in edit.columns && (key in row.columns ==> row.columns[key] != edit.columns[key]))
    || edit.detail != row.detail
    || (edit.targets.Some? && edit.targets.value != row.targets)
    || SendsNewPeriod(row, edit)
  }

  /** The edit is wrong whether or not it changes anything. */
  ghost predicate IsFaulty(row: Submission, edit: Edit) {
    || edit.contentErrors
    || (row.kind == Story
        && (edit.startAt.Some? || edit.endAt.Some? || (edit.targets.Some? && edit.targets.value != {})))
  }

  /** The edit chooses a group that it did not have and may not have. */
  ghost predicate PicksUnavailable(row: Submission, edit: Edit) {
    edit.targets.Some? && exists g :: g in edit.targets.value && g !in row.targets && g in edit.unavailable
  }

  /** The period that the row would have. */
  ghost predicate KeepsSchedule(row: Submission, edit: Edit, now: int) {
    match row.period
    case None => ScheduleValid(row.kind, None, now)
    case Some(period) =>
      var startAt := if edit.startAt.Some? then edit.startAt.value else period.startAt;
      var endAt := if edit.endAt.Some? then edit.endAt.value else period.endAt;
      ScheduleValid(row.kind, Some(Period(startAt, endAt)), now)
  }

  lemma NewsExactly(row: Submission, edit: Edit)
    requires !(row.period.None? && (edit.startAt.Some? || edit.endAt.Some?))
    ensures SendsNews(row, edit)
       <==> || ChangedColumns(row.columns, edit.columns) != map[] || NextPeriod(row, edit) != row.period
            || edit.detail != row.detail || (edit.targets.Some? && edit.targets.value != row.targets)
    ensures SendsNewPeriod(row, edit) <==> NextPeriod(row, edit) != row.period
  {
    var columns := ChangedColumns(row.columns, edit.columns);
    if columns != map[] {
      assert exists key :: key in columns;
    }
    forall key | key in edit.columns && (key in row.columns ==> row.columns[key] != edit.columns[key])
      ensures key in columns
    {
    }
  }

  /** When an edit is refused, does nothing, or is stored, for every row and every edit. */
  lemma UpdateExactly(row: Submission, user: int, version: int, edit: Edit, now: int)
    requires WellFormed(row)
    ensures var answer := Decide(Update(user, version, edit), row, now);
            && (answer.NotFound? <==> row.requester != user)
            && (answer.NotResubmittable? <==>
                  && row.requester == user && row.version == version
                  && row.kind == Story && row.status in {Rejected, Suspended})
            && (answer.Unchanged? <==>
                  MayEdit(row, user, version, now) && !SendsNews(row, edit) && !IsFaulty(row, edit))
            && (answer.Commit? <==>
                  && MayEdit(row, user, version, now) && SendsNews(row, edit) && !IsFaulty(row, edit)
                  && (SendsNewPeriod(row, edit) || row.status in {Approved, Scheduled} ==>
                        KeepsSchedule(row, edit, now))
                  && !PicksUnavailable(row, edit))
            && (answer.Invalid? <==>
                  MayEdit(row, user, version, now) && !answer.Unchanged? && !answer.Commit?)
            && !answer.Forbidden?
  {
    hide ScheduleValid, ChangedColumns, SendsNews;
    var periodless := row.period.None? && (edit.startAt.Some? || edit.endAt.Some?);
    assert periodless ==> IsFaulty(row, edit);
    assert MayEdit(row, user, version, now)
      <==> && row.requester == user && row.version == version && row.status in EDITABLE
           && !HasStartedPublishing(row, now) && !(row.kind == Story && row.status in RETURNED);
    assert IsFaulty(row, edit) <==> edit.contentErrors || Unaccepted(row.kind, edit);
    assert KeepsSchedule(row, edit, now) <==> ScheduleValid(row.kind, NextPeriod(row, edit), now);
    if !periodless {
      NewsExactly(row, edit);
    }
    if edit.targets.Some? {
      NoneIn(edit.targets.value - row.targets, edit.unavailable);
      assert PicksUnavailable(row, edit) <==> (edit.targets.value - row.targets) * edit.unavailable != {};
    }
  }

  lemma NoneIn(chosen: set<Group>, unavailable: set<Group>)
    ensures chosen * unavailable == {} <==> forall g :: g in chosen ==> g !in unavailable
  {
    var both := chosen * unavailable;
    assert (forall g :: g !in both) ==> both == {};
    assert forall g :: g in chosen && g in unavailable ==> g in both;
  }

  /** A committed edit stores exactly what it sends and nothing else: every column that it names, its
      detail, and each end of the period and the targets if it names them. An approved submission
      goes back to review, any other keeps its status, and the row differs in its content. */
  lemma UpdateStoresTheEdit(row: Submission, user: int, version: int, edit: Edit, now: int)
    requires WellFormed(row) && Decide(Update(user, version, edit), row, now).Commit?
    ensures var next := Decide(Update(user, version, edit), row, now).row;
            && next.columns.Keys == row.columns.Keys + edit.columns.Keys
            && (forall key :: key in edit.columns ==> next.columns[key] == edit.columns[key])
            && (forall key :: key in row.columns && key !in edit.columns ==> next.columns[key] == row.columns[key])
            && next.detail == edit.detail
            && next.targets == (if edit.targets.Some? then edit.targets.value else row.targets)
            && (row.period.None? ==> next.period.None? && edit.startAt.None? && edit.endAt.None?)
            && (row.period.Some? ==>
                  && next.period.Some?
                  && next.period.value.startAt
                     == (if edit.startAt.Some? then edit.startAt.value else row.period.value.startAt)
                  && next.period.value.endAt
                     == (if edit.endAt.Some? then edit.endAt.value else row.period.value.endAt))
            && next.version == row.version + 1
            && (row.status in {Approved, Scheduled} ==> next.status == PendingReview && next.submittedAt == now)
            && (row.status !in {Approved, Scheduled} ==>
                  next.status == row.status && next.submittedAt == row.submittedAt)
            && (&& next.kind == row.kind && next.requester == row.requester && next.priority == row.priority
                && next.storyNumber == row.storyNumber && next.createdAt == row.createdAt)
            && ( || next.columns != row.columns || next.detail != row.detail
                 || next.targets != row.targets || next.period != row.period)
  {
    hide ScheduleValid;
    var next := Decide(Update(user, version, edit), row, now).row;
    if ChangedColumns(row.columns, edit.columns) != map[] {
      var key :| key in ChangedColumns(row.columns, edit.columns);
      assert key in next.columns && (key in row.columns ==> row.columns[key] != next.columns[key]);
    }
  }

  // ---------------------------------------------------------------- the other requests

  lemma SubmitExactly(row: Submission, user: int, version: int, now: int)
    requires WellFormed(row)
    ensures var answer := Decide(Submit(user, version), row, now);
            var mine := row.requester == user && row.version == version;
            && (answer.NotFound? <==> row.requester != user)
            && (answer.NotResubmittable? <==> mine && row.status in {Draft, Rejected, Suspended} && row.kind == Story)
            && (answer.Commit? <==>
                  && mine && row.status in {Draft, Rejected, Suspended} && row.kind != Story
                  && ScheduleValid(row.kind, row.period, now))
            && (answer.Invalid? <==>
                  && mine && row.status in {Draft, Rejected, Suspended} && row.kind != Story
                  && !ScheduleValid(row.kind, row.period, now))
            && !answer.Unchanged? && !answer.Forbidden?
            && (answer.Commit? ==>
                  answer.row == row.(status := PendingReview, submittedAt := now, version := row.version + 1))
  {
    hide ScheduleValid;
  }

  /** The owner may cancel what was not approved yet, or was approved and has not started. */
  lemma CancelExactly(row: Submission, user: int, version: int, now: int)
    requires WellFormed(row)
    ensures var answer := Decide(Cancel(user, version), row, now);
            && (answer.NotFound? <==> row.requester != user)
            && (answer.Commit? <==>
                  && row.requester == user && row.version == version
                  && ( || row.status in {Draft, PendingReview, Rejected}
                       || (row.status in {Approved, Scheduled} && now < row.period.value.startAt)))
            && (answer.Conflict? <==> row.requester == user && !answer.Commit?)
            && (answer.Commit? ==> answer.row == row.(status := Canceled, version := row.version + 1))
  {
  }

  /** A reviewer may approve the version seen, while it waits, if its media can play and its period is
      not over; a story gets its two days from now and its number. */
  lemma ApproveExactly(row: Submission, revision: int, mediaReady: bool, storyNumber: int, now: int)
    requires WellFormed(row)
    ensures var answer := Decide(Approve(revision, mediaReady, storyNumber), row, now);
            && (answer.Commit? <==>
                  && row.version == revision && row.status == PendingReview && mediaReady
                  && (row.kind != Story ==> now < row.period.value.endAt))
            && (answer.Conflict? <==> !answer.Commit?)
            && (answer.Commit? && row.kind == Story ==>
                  answer.row == row.(status := Published, period := Some(Period(now, now + 172_800_000)),
                                     storyNumber := Some(storyNumber), version := row.version + 1))
            && (answer.Commit? && row.kind != Story ==>
                  answer.row == row.(status := if now < row.period.value.startAt then Scheduled else Published,
                                     version := row.version + 1))
  {
  }

  lemma RejectExactly(row: Submission, revision: int, now: int)
    requires WellFormed(row)
    ensures var answer := Decide(Reject(revision), row, now);
            && (answer.Commit? <==> row.version == revision && row.status == PendingReview)
            && (answer.Conflict? <==> !answer.Commit?)
            && (answer.Commit? ==> answer.row == row.(status := Rejected, version := row.version + 1))
  {
  }

  /** A reviewer may suspend anything approved that is not over, the owner a story or an event banner. */
  lemma SuspendExactly(row: Submission, user: int, reviewer: bool, now: int)
    requires WellFormed(row)
    ensures var answer := Decide(Suspend(user, reviewer), row, now);
            var allowed := reviewer || (row.requester == user && row.kind != Poster);
            var running := row.status in {Approved, Scheduled, Published} && now < row.period.value.endAt;
            && (answer.NotFound? <==> !reviewer && row.requester != user)
            && (answer.Forbidden? <==> !reviewer && row.requester == user && row.kind == Poster)
            && (answer.Commit? <==> allowed && running)
            && (answer.Conflict? <==> allowed && !running)
            && (answer.Commit? ==> answer.row == row.(status := Suspended, version := row.version + 1))
  {
  }

  /** Every decision of a reviewer leaves one review that names the version it was made on. */
  lemma ReviewsAreRecorded(op: Operation, row: Submission, now: int)
    ensures var reviews := ReviewOf(op, row, now);
            && (op.Approve? ==> reviews == [Review(row.version, ApprovedIt, now)])
            && (op.Reject? ==> reviews == [Review(row.version, RejectedIt, now)])
            && (op.Suspend? ==> reviews == [Review(row.version, SuspendedIt, now)])
            && (op.Update? || op.Submit? || op.Cancel? ==> reviews == [])
  {
  }

  // ---------------------------------------------------------------- new submissions

  /** When a new submission is refused or over the limit of its user's Seoul day, and what is stored
      otherwise. A user makes at most three event banners and five stories a day. */
  lemma CreateExactly(rows: Table, form: Form, now: int)
    requires form.Complete()
    ensures var answer := DecideCreate(rows, form, now);
            var today := set id | && id in rows && rows[id].requester == form.requester && rows[id].kind == form.kind
                                  && rows[id].createdAt >= StartOfSeoulDay(SeoulDate(now));
            var fits := && !form.contentErrors
                        && (form.kind == Story ==> form.startAt.None? && form.endAt.None? && form.targets == {})
                        && (forall g :: g in form.targets ==> g !in form.unavailable)
                        && (form.kind != Story ==>
                              ScheduleValid(form.kind, Some(Period(form.startAt.value, form.endAt.value)), now));
            var full := (form.kind == EventBanner && |today| >= 3) || (form.kind == Story && |today| >= 5);
            && (answer.Unfit? <==> !fits)
            && (answer.OverLimit? <==> fits && full)
            && (answer.Created? <==> fits && !full)
            && (answer.Created? ==>
                  var row := answer.row;
                  && row.kind == form.kind && row.requester == form.requester && row.columns == form.columns
                  && row.detail == form.detail && row.targets == form.targets
                  && row.period == (if form.kind == Story then None
                                    else Some(Period(form.startAt.value, form.endAt.value)))
                  && row.storyNumber.None? && row.status == PendingReview && row.priority == 0 && row.version == 1
                  && row.submittedAt == now && row.createdAt == now)
  {
    hide ScheduleValid, StartOfSeoulDay, SeoulDate;
    ScheduleExactly(form.kind, 0, 0, now);
    var since := StartOfSeoulDay(SeoulDate(now));
    var today := set id | && id in rows && rows[id].requester == form.requester && rows[id].kind == form.kind
                          && rows[id].createdAt >= since;
    assert MadeSince(rows, form.requester, form.kind, since) == today;
    NoneIn(form.targets, form.unavailable);
    NoneIn({}, form.unavailable);
  }

  // ---------------------------------------------------------------- the status job

  /** Which approved rows each bulk update takes: to ENDED what is over, to PUBLISHED what runs and is
      not there yet, to SCHEDULED what was approved and has not started. */
  lemma MovesExactly(row: Submission, now: int)
    requires WellFormed(row)
    ensures var approved := row.status == Approved || row.status == Scheduled || row.status == Published;
            && (Moves(row, Ended, now) <==> approved && row.period.value.endAt <= now)
            && (Moves(row, Published, now) <==>
                  && approved && row.status != Published
                  && row.period.value.startAt <= now && now < row.period.value.endAt)
            && (Moves(row, Scheduled, now) <==> row.status == Approved && now < row.period.value.startAt)
    ensures forall to :: to != Ended && to != Published && to != Scheduled ==> !Moves(row, to, now)
    ensures forall to :: Moves(row, to, now) ==> Moved(row, to, now) == row.(status := to, version := row.version + 1)
  {
  }
}
