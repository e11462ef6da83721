/** What holds of submissions over every interleaving of requests, reviews and the status job. */
module SubmissionSafety {
  import opened Wrappers
  import opened SeoulTime
  import opened Submissions

  // ---------------------------------------------------------------- runs of overlapping requests

  /** What a reviewer decides on. A story gets its period and number only on approval. */
  datatype Content = Content(
    kind: Kind, columns: map<string, string>, detail: string, targets: set<Group>, period: Option<Period>)

  function ContentOf(row: Submission): Content {
    Content(row.kind, row.columns, row.detail, row.targets, if row.kind.RequestsPeriod() then row.period else None)
  }

  /** A request that has read its row and decides on that copy at the time it took when it began. */
  datatype Request = Request(id: Id, snapshot: Submission, op: Operation, now: int)

  /** history remembers the content of every version of every submission. */
  datatype World = World(
    rows: Table,
    reviews: map<Id, seq<Review>>,
    requests: map<int, Request>,
    history: map<(Id, int), Content>)

  /** Reading the row, reading its detail, reading its targets and the transaction are separate steps. */
  datatype Step =
    | Create(id: Id, form: Form, at: int)
    | ReadRow(request: int, id: Id, op: Operation, at: int)
    | ReadDetail(request: int)
    | ReadTargets(request: int)
    | Write(request: int)
    | RunJob(at: int)

  ghost predicate Enabled(w: World, step: Step) {
    match step
    case Create(id, form, at) => id !in w.rows && form.Complete() && DecideCreate(w.rows, form, at).Created?
    case ReadRow(request, id, _, _) => request !in w.requests && id in w.rows
    case ReadDetail(request) => request in w.requests && w.requests[request].id in w.rows
    case ReadTargets(request) => request in w.requests && w.requests[request].id in w.rows
    case Write(request) => request in w.requests && WellFormed(w.requests[request].snapshot)
    case RunJob(_) => true
  }

  /** The effect of Database.ApplyTransition, with the new version remembered. */
  function AfterWrite(w: World, request: Request): World
    requires WellFormed(request.snapshot)
  {
    var outcome := Decide(request.op, request.snapshot, request.now);
    if outcome.Commit? && request.id in w.rows && w.rows[request.id].version == request.snapshot.version then
      w.(rows := w.rows[request.id := outcome.row],
         reviews := w.reviews[request.id := ReviewsOf(w.reviews, request.id)
                                            + ReviewOf(request.op, request.snapshot, request.now)],
         history := w.history[(request.id, outcome.row.version) := ContentOf(outcome.row)])
    else w
  }

  function Inserted(w: World, id: Id, row: Submission): World {
    w.(rows := w.rows[id := row], history := w.history[(id, row.version) := ContentOf(row)])
  }

  function Versions(rows: Table): set<(Id, int)> {
    set id | id in rows :: (id, rows[id].version)
  }

  function Remember(history: map<(Id, int), Content>, rows: Table): map<(Id, int), Content> {
    history + map key | key in Versions(rows) :: ContentOf(rows[key.0])
  }

  ghost function Next(w: World, step: Step): World
    requires Enabled(w, step)
  {
    match step
    case Create(id, form, at) => Inserted(w, id, DecideCreate(w.rows, form, at).row)
    case ReadRow(request, id, op, at) => w.(requests := w.requests[request := Request(id, w.rows[id], op, at)])
    case ReadDetail(request) =>
      var copy := w.requests[request].snapshot.(detail := w.rows[w.requests[request].id].detail);
      w.(requests := w.requests[request := w.requests[request].(snapshot := copy)])
    case ReadTargets(request) =>
      var copy := w.requests[request].snapshot.(targets := w.rows[w.requests[request].id].targets);
      w.(requests := w.requests[request := w.requests[request].(snapshot := copy)])
    case Write(request) => AfterWrite(w, w.requests[request])
    case RunJob(at) => var rows := SyncAll(w.rows, at); w.(rows := rows, history := Remember(w.history, rows))
  }

  // ---------------------------------------------------------------- the invariant

  ghost predicate HistoryKept(w: World) {
    && (forall id :: id in w.rows ==>
          WellFormed(w.rows[id]) && (id, w.rows[id].version) in w.history
          && w.history[(id, w.rows[id].version)] == ContentOf(w.rows[id]))
    && (forall id, version :: (id, version) in w.history ==> id in w.rows && version <= w.rows[id].version)
  }

  /** A copy whose version is still current is the row itself. */
  ghost predicate CopyOrdered(rows: Table, copy: Request) {
    && WellFormed(copy.snapshot) && copy.id in rows && copy.snapshot.version <= rows[copy.id].version
    && (copy.snapshot.version == rows[copy.id].version ==> copy.snapshot == rows[copy.id])
  }

  ghost predicate CopiesOrdered(w: World) {
    forall request :: request in w.requests ==> CopyOrdered(w.rows, w.requests[request])
  }

  /** The review committed last. */
  function Newest(reviews: seq<Review>): Review
    requires reviews != []
  {
    reviews[|reviews| - 1]
  }

  /** The newest review approved exactly this content. */
  ghost predicate ApprovedAs(reviews: seq<Review>, history: map<(Id, int), Content>, id: Id, content: Content) {
    && reviews != []
    && var newest := Newest(reviews);
    && newest.decision == ApprovedIt
    && (id, newest.revision) in history && history[(id, newest.revision)] == content
  }

  ghost predicate ShownIsApproved(w: World) {
    forall id :: id in w.rows && w.rows[id].status in PUBLISHABLE ==>
      ApprovedAs(ReviewsOf(w.reviews, id), w.history, id, ContentOf(w.rows[id]))
  }

  ghost predicate Inv(w: World) { HistoryKept(w) && CopiesOrdered(w) && ShownIsApproved(w) }

  /** Only an approval makes a submission publishable, and it changes nothing that was reviewed. */
  lemma CommitShowsOnlyApprovals(op: Operation, row: Submission, now: int)
    requires WellFormed(row) && Decide(op, row, now).Commit?
    ensures var next := Decide(op, row, now).row;
            && WellFormed(next) && next.version == row.version + 1
            && (next.status in PUBLISHABLE ==>
                  op.Approve? && ContentOf(next) == ContentOf(row)
                      && ReviewOf(op, row, now) == [Review(row.version, ApprovedIt, now)])
  {
    CommitIsWellFormed(op, row, now);
    hide ScheduleValid, ChangedColumns;
  }

  /** The job changes status and version only, and makes nothing publishable. */
  ghost predicate Restamped(row: Submission, next: Submission) {
    && WellFormed(next) && ContentOf(next) == ContentOf(row)
    && (next.status in PUBLISHABLE ==> row.status in PUBLISHABLE)
    && (next == row || next.version == row.version + 1)
  }

  lemma SyncRestamps(rows: Table, now: int)
    requires forall id :: id in rows ==> WellFormed(rows[id])
    ensures SyncAll(rows, now).Keys == rows.Keys
    ensures forall id :: id in rows ==> Restamped(rows[id], SyncAll(rows, now)[id])
  {
    assert SyncAll(rows, now).Keys == rows.Keys;
    hide SyncAll;
    forall id | id in rows
      ensures Restamped(rows[id], SyncAll(rows, now)[id])
    {
      SyncIsTimely(rows, now, id);
    }
  }

  lemma WriteKeepsInv(w: World, request: int)
    requires Inv(w) && Enabled(w, Write(request))
    ensures Inv(Next(w, Write(request)))
  {
    var Request(id, snapshot, op, now) := w.requests[request];
    if Decide(op, snapshot, now).Commit? {
      CommitShowsOnlyApprovals(op, snapshot, now);
    }
    hide Decide, WellFormed;
    var w1 := Next(w, Write(request));
    assert HistoryKept(w1);
    assert CopiesOrdered(w1);
    assert ShownIsApproved(w1) by {
      forall other | other in w1.rows && w1.rows[other].status in PUBLISHABLE
        ensures ApprovedAs(ReviewsOf(w1.reviews, other), w1.history, other, ContentOf(w1.rows[other]))
      {
        if w1 != w && other == id {
          assert w.history[(id, snapshot.version)] == ContentOf(snapshot);
        } else {
          assert ApprovedAs(ReviewsOf(w.reviews, other), w.history, other, ContentOf(w.rows[other]));
        }
      }
    }
  }

  ghost predicate HistoryExtends(history: map<(Id, int), Content>, next: map<(Id, int), Content>) {
    forall key :: key in history ==> key in next && next[key] == history[key]
  }

  /** Approvals stay valid when no submission becomes publishable and no content changes. */
  lemma ApprovalsCarryOver(w: World, w1: World)
    requires ShownIsApproved(w) && w1.reviews == w.reviews && HistoryExtends(w.history, w1.history)
    requires forall id :: id in w1.rows && w1.rows[id].status in PUBLISHABLE ==>
               id in w.rows && w.rows[id].status in PUBLISHABLE && ContentOf(w1.rows[id]) == ContentOf(w.rows[id])
    ensures ShownIsApproved(w1)
  {
    hide ContentOf;
    forall id | id in w1.rows && w1.rows[id].status in PUBLISHABLE
      ensures ApprovedAs(ReviewsOf(w1.reviews, id), w1.history, id, ContentOf(w1.rows[id]))
    {
      assert ApprovedAs(ReviewsOf(w.reviews, id), w.history, id, ContentOf(w.rows[id]));
    }
  }

  /** Restamping writes new history entries and repeats old ones. */
  lemma RestampKeepsHistory(w: World, rows: Table)
    requires HistoryKept(w) && rows.Keys == w.rows.Keys
    requires forall id :: id in rows ==> Restamped(w.rows[id], rows[id])
    ensures HistoryKept(w.(rows := rows, history := Remember(w.history, rows)))
    ensures HistoryExtends(w.history, Remember(w.history, rows))
  {
    hide WellFormed, ContentOf;
    var history := Remember(w.history, rows);
    forall id | id in rows
      ensures (id, rows[id].version) in history && history[(id, rows[id].version)] == ContentOf(rows[id])
    {
      assert (id, rows[id].version) in Versions(rows);
    }
    forall id, version | (id, version) in w.history
      ensures (id, version) in history && history[(id, version)] == w.history[(id, version)]
    {
      assert Restamped(w.rows[id], rows[id]);
    }
  }

  lemma RestampKeepsCopies(w: World, rows: Table)
    requires CopiesOrdered(w) && rows.Keys == w.rows.Keys
    requires forall id :: id in rows ==> Restamped(w.rows[id], rows[id])
    ensures CopiesOrdered(w.(rows := rows, history := Remember(w.history, rows)))
  {
    hide WellFormed, ContentOf, Remember;
  }

  lemma JobKeepsInv(w: World, at: int)
    requires Inv(w)
    ensures Inv(Next(w, RunJob(at)))
  {
    hide SyncAll, WellFormed, ContentOf, CopiesOrdered, ShownIsApproved, HistoryExtends, Remember;
    var rows := SyncAll(w.rows, at);
    SyncRestamps(w.rows, at);
    RestampKeepsHistory(w, rows);
    RestampKeepsCopies(w, rows);
    ApprovalsCarryOver(w, w.(rows := rows, history := Remember(w.history, rows)));
  }

  lemma InsertKeepsHistory(w: World, id: Id, row: Submission)
    requires HistoryKept(w) && id !in w.rows && WellFormed(row) && row.status !in PUBLISHABLE
    ensures HistoryKept(Inserted(w, id, row)) && HistoryExtends(w.history, Inserted(w, id, row).history)
    ensures Inserted(w, id, row).reviews == w.reviews
    ensures var rows := Inserted(w, id, row).rows;
            forall other :: other in rows && rows[other].status in PUBLISHABLE ==>
              other in w.rows && rows[other] == w.rows[other]
  {
    hide WellFormed, ContentOf;
  }

  lemma InsertKeepsCopies(w: World, id: Id, row: Submission)
    requires CopiesOrdered(w) && id !in w.rows
    ensures CopiesOrdered(Inserted(w, id, row))
  {
    hide WellFormed, ContentOf;
  }

  lemma CreateKeepsInv(w: World, id: Id, form: Form, at: int)
    requires Inv(w) && Enabled(w, Create(id, form, at))
    ensures Inv(Next(w, Create(id, form, at)))
  {
    hide WellFormed, ContentOf, DecideCreate, Inserted, HistoryKept, CopiesOrdered, ShownIsApproved, HistoryExtends;
    NewIsWellFormed(w.rows, form, at);
    var row := DecideCreate(w.rows, form, at).row;
    InsertKeepsHistory(w, id, row);
    InsertKeepsCopies(w, id, row);
    ApprovalsCarryOver(w, Inserted(w, id, row));
  }

  lemma ReadKeepsInv(w: World, step: Step)
    requires Inv(w) && Enabled(w, step) && (step.ReadRow? || step.ReadDetail? || step.ReadTargets?)
    ensures Inv(Next(w, step))
  {
    hide ApprovedAs;
    var w1 := Next(w, step);
    assert HistoryKept(w1) && ShownIsApproved(w1);
  }

  lemma StepKeepsInv(w: World, step: Step)
    requires Inv(w) && Enabled(w, step)
    ensures Inv(Next(w, step))
  {
    hide Inv, DecideCreate, Inserted, AfterWrite, SyncAll;
    match step
    case Create(id, form, at) => CreateKeepsInv(w, id, form, at);
    case Write(request) => WriteKeepsInv(w, request);
    case RunJob(at) => JobKeepsInv(w, at);
    case _ => ReadKeepsInv(w, step);
  }

  // ---------------------------------------------------------------- runs

  const EMPTY := World(map[], map[], map[], map[])

  ghost predicate ValidRun(steps: seq<Step>)
    decreases |steps|, 0
  {
    steps == [] ||
    var n := |steps| - 1;
    ValidRun(steps[..n]) && Enabled(Reached(steps[..n]), steps[n])
  }

  ghost function Reached(steps: seq<Step>): World
    requires ValidRun(steps)
    decreases |steps|, 1
  {
    if steps == [] then EMPTY else Next(Reached(steps[..|steps| - 1]), steps[|steps| - 1])
  }

  lemma {:induction false} RunKeepsInv(steps: seq<Step>)
    requires ValidRun(steps)
    ensures Inv(Reached(steps))
  {
    hide Next, Enabled;
    if steps != [] {
      hide Inv;
      RunKeepsInv(steps[..|steps| - 1]);
      StepKeepsInv(Reached(steps[..|steps| - 1]), steps[|steps| - 1]);
    }
  }

  lemma {:induction false} PrefixIsValid(steps: seq<Step>, k: nat)
    requires ValidRun(steps) && k <= |steps|
    ensures ValidRun(steps[..k])
    decreases |steps|
  {
    hide Next, Enabled;
    if k == |steps| {
      assert steps[..k] == steps;
    } else {
      PrefixIsValid(steps[..|steps| - 1], k);
      assert steps[..|steps| - 1][..k] == steps[..k];
    }
  }

  /** The world after the first k steps. */
  ghost function Before(steps: seq<Step>, k: nat): World
    requires ValidRun(steps) && k <= |steps|
  {
    PrefixIsValid(steps, k);
    Reached(steps[..k])
  }

  /** One step only adds history entries. */
  lemma StepKeepsHistory(w: World, step: Step, id: Id, version: int)
    requires Inv(w) && Enabled(w, step) && (id, version) in w.history
    ensures (id, version) in Next(w, step).history && Next(w, step).history[(id, version)] == w.history[(id, version)]
  {
    match step
    case RunJob(at) =>
      hide SyncAll;
      SyncRestamps(w.rows, at);
      RestampKeepsHistory(w, SyncAll(w.rows, at));
    case Write(request) =>
      var copy := w.requests[request];
      if Decide(copy.op, copy.snapshot, copy.now).Commit? {
        CommitIsWellFormed(copy.op, copy.snapshot, copy.now);
      }
      hide Decide, ContentOf;
    case _ => hide ContentOf;
  }

  /** A version once stored keeps naming the content it had. */
  lemma {:induction false} VersionNamesContent(steps: seq<Step>, k: nat, id: Id)
    requires ValidRun(steps) && k <= |steps| && id in Before(steps, k).rows
    ensures var row := Before(steps, k).rows[id];
            (id, row.version) in Reached(steps).history && Reached(steps).history[(id, row.version)] == ContentOf(row)
    decreases |steps|
  {
    hide Next, Enabled, ContentOf;
    PrefixIsValid(steps, k);
    RunKeepsInv(steps[..k]);
    if k < |steps| {
      var init := steps[..|steps| - 1];
      assert init[..k] == steps[..k];
      VersionNamesContent(init, k, id);
      RunKeepsInv(init);
      hide Inv, Reached;
      StepKeepsHistory(Reached(init), steps[|steps| - 1], id, Before(steps, k).rows[id].version);
      assert Reached(steps) == Next(Reached(init), steps[|steps| - 1]) by { LastStep(steps); }
    } else {
      assert steps[..k] == steps;
    }
  }

  lemma LastStep(steps: seq<Step>)
    requires ValidRun(steps) && steps != []
    ensures Reached(steps) == Next(Reached(steps[..|steps| - 1]), steps[|steps| - 1])
  {
    hide Next, Enabled;
  }

  ghost predicate HadVersion(steps: seq<Step>, k: nat, id: Id, version: int)
    requires ValidRun(steps) && k <= |steps|
  {
    id in Before(steps, k).rows && Before(steps, k).rows[id].version == version
  }

  lemma StepAddsCurrentVersions(w: World, step: Step, id: Id, version: int)
    requires Inv(w) && Enabled(w, step) && (id, version) in Next(w, step).history && (id, version) !in w.history
    ensures id in Next(w, step).rows && Next(w, step).rows[id].version == version
  {
    hide ContentOf, SyncAll, Decide, DecideCreate;
  }

  /** Every remembered version was the version of its row at some time. */
  lemma {:induction false} HistoryHasOrigin(steps: seq<Step>, id: Id, version: int)
    requires ValidRun(steps) && (id, version) in Reached(steps).history
    ensures exists k :: 0 <= k <= |steps| && HadVersion(steps, k, id, version)
    decreases |steps|
  {
    hide Next, Enabled, Inv;
    if steps != [] {
      var n := |steps| - 1;
      var init := steps[..n];
      if (id, version) in Reached(init).history {
        HistoryHasOrigin(init, id, version);
        var k :| 0 <= k <= n && HadVersion(init, k, id, version);
        assert init[..k] == steps[..k];
        assert HadVersion(steps, k, id, version);
      } else {
        RunKeepsInv(init);
        StepAddsCurrentVersions(Reached(init), steps[n], id, version);
        assert steps[..n + 1] == steps;
        assert HadVersion(steps, n + 1, id, version);
      }
    }
  }

  /** What is approved, scheduled or published was approved as it is: the newest review is an
      approval, and whenever the submission had the reviewed version, it had today's content. */
  lemma ShownContentWasApproved(steps: seq<Step>, id: Id)
    requires ValidRun(steps) && id in Reached(steps).rows
    requires Reached(steps).rows[id].status in {Approved, Scheduled, Published}
    ensures var reviews, shown := ReviewsOf(Reached(steps).reviews, id), Reached(steps).rows[id];
            && reviews != [] && var newest := reviews[|reviews| - 1];
            && newest.decision == ApprovedIt
            && (exists k :: 0 <= k <= |steps| && HadVersion(steps, k, id, newest.revision))
            && (forall k :: 0 <= k <= |steps| && HadVersion(steps, k, id, newest.revision) ==>
                  var reviewed := Before(steps, k).rows[id];
                  && reviewed.kind == shown.kind && reviewed.columns == shown.columns
                  && reviewed.detail == shown.detail && reviewed.targets == shown.targets
                  && (shown.kind != Story ==> reviewed.period == shown.period))
  {
    hide Next, Enabled;
    RunKeepsInv(steps);
    var reviews := ReviewsOf(Reached(steps).reviews, id);
    assert ApprovedAs(reviews, Reached(steps).history, id, ContentOf(Reached(steps).rows[id]));
    var revision := Newest(reviews).revision;
    hide Inv;
    HistoryHasOrigin(steps, id, revision);
    forall k | 0 <= k <= |steps| && HadVersion(steps, k, id, revision)
      ensures ContentOf(Before(steps, k).rows[id]) == ContentOf(Reached(steps).rows[id])
    {
      VersionNamesContent(steps, k, id);
    }
  }

  /** A write that commits was decided on the row exactly as it stands when it commits, however long
      ago the request read its row and in whatever pieces: no update is lost. */
  lemma CommitsAreSerial(steps: seq<Step>, request: int)
    requires ValidRun(steps) && Enabled(Reached(steps), Write(request))
    requires Next(Reached(steps), Write(request)) != Reached(steps)
    ensures var w, copy := Reached(steps), Reached(steps).requests[request];
            && copy.id in w.rows && w.rows[copy.id] == copy.snapshot
            && Decide(copy.op, w.rows[copy.id], copy.now).Commit?
            && Next(w, Write(request)).rows == w.rows[copy.id := Decide(copy.op, w.rows[copy.id], copy.now).row]
  {
    RunKeepsInv(steps);
    hide Decide, WellFormed, ContentOf, ValidRun, Reached;
  }

  /** Which writes take effect: exactly those that decide to commit on a copy that is still the row.
      Then the decided row is stored and its review appended; any other write changes nothing. */
  lemma WriteTakesEffectExactly(steps: seq<Step>, request: int)
    requires ValidRun(steps) && Enabled(Reached(steps), Write(request))
    ensures var w, copy := Reached(steps), Reached(steps).requests[request];
            var outcome, w1 := Decide(copy.op, copy.snapshot, copy.now), Next(Reached(steps), Write(request));
            var takes := outcome.Commit? && copy.id in w.rows && w.rows[copy.id] == copy.snapshot;
            && (w1.rows != w.rows <==> takes)
            && (w1.rows == if takes then w.rows[copy.id := outcome.row] else w.rows)
            && (takes ==>
                  ReviewsOf(w1.reviews, copy.id)
                  == ReviewsOf(w.reviews, copy.id) + ReviewOf(copy.op, copy.snapshot, copy.now))
            && (forall id :: id != copy.id || !takes ==> ReviewsOf(w1.reviews, id) == ReviewsOf(w.reviews, id))
  {
    RunKeepsInv(steps);
    var copy := Reached(steps).requests[request];
    if Decide(copy.op, copy.snapshot, copy.now).Commit? {
      CommitIsWellFormed(copy.op, copy.snapshot, copy.now);
    }
    hide Decide, WellFormed, ContentOf, ValidRun, Reached, ReviewOf;
  }

  /** In every run a request that reads a row, its detail and its targets while nobody changes them,
      and that commits on them, is stored with its review. */
  lemma UndisturbedRequestIsStored(steps: seq<Step>, request: int, id: Id, op: Operation, now: int)
    requires ValidRun(steps) && request !in Reached(steps).requests && id in Reached(steps).rows
    requires WellFormed(Reached(steps).rows[id]) && Decide(op, Reached(steps).rows[id], now).Commit?
    ensures var w := Reached(steps);
            && Enabled(w, ReadRow(request, id, op, now))
            && var w1 := Next(w, ReadRow(request, id, op, now));
            && Enabled(w1, ReadDetail(request))
            && var w2 := Next(w1, ReadDetail(request));
            && Enabled(w2, ReadTargets(request))
            && var w3 := Next(w2, ReadTargets(request));
            && Enabled(w3, Write(request))
            && var w4 := Next(w3, Write(request));
            && w4.rows == w.rows[id := Decide(op, w.rows[id], now).row]
            && ReviewsOf(w4.reviews, id) == ReviewsOf(w.reviews, id) + ReviewOf(op, w.rows[id], now)
  {
    hide Decide, WellFormed, ContentOf, ReviewOf, ValidRun, Reached;
    var w := Reached(steps);
    var w1 := Next(w, ReadRow(request, id, op, now));
    assert w1.requests[request].snapshot == w.rows[id];
    var w2 := Next(w1, ReadDetail(request));
    assert w2.requests[request].snapshot == w.rows[id];
    var w3 := Next(w2, ReadTargets(request));
    assert w3.requests[request].snapshot == w.rows[id];
  }

  // ---------------------------------------------------------------- the daily limit

  function MadeOn(rows: Table, user: int, kind: Kind, day: int): set<Id> {
    set id | id in rows && rows[id].requester == user && rows[id].kind == kind && SeoulDate(rows[id].createdAt) == day
  }

  ghost predicate LimitKept(rows: Table) {
    forall user, kind, day ::
      DailyLimit(kind).Some? ==> |MadeOn(rows, user, kind, day)| <= DailyLimit(kind).value
  }

  /** The same submissions by the same users at the same times. */
  ghost predicate SameOrigins(rows: Table, next: Table) {
    && next.Keys == rows.Keys
    && forall id :: id in rows ==>
         && next[id].requester == rows[id].requester && next[id].kind == rows[id].kind
         && next[id].createdAt == rows[id].createdAt
  }

  lemma LimitCarriesOver(rows: Table, next: Table)
    requires LimitKept(rows) && SameOrigins(rows, next)
    ensures LimitKept(next)
  {
    hide SeoulDate;
    forall user, kind, day
      ensures MadeOn(next, user, kind, day) == MadeOn(rows, user, kind, day)
    {
      assert forall id :: id in MadeOn(next, user, kind, day) <==> id in MadeOn(rows, user, kind, day);
    }
  }

  lemma WriteKeepsOrigins(w: World, request: int)
    requires Inv(w) && Enabled(w, Write(request))
    ensures SameOrigins(w.rows, Next(w, Write(request)).rows)
  {
    var Request(id, snapshot, op, now) := w.requests[request];
    assert CopyOrdered(w.rows, w.requests[request]);
    if Decide(op, snapshot, now).Commit? {
      assert Decide(op, snapshot, now).row.createdAt == snapshot.createdAt by { hide ScheduleValid, ChangedColumns; }
      DecisionsFollowTheGraph(op, snapshot, now);
    }
    hide Decide, WellFormed, ContentOf, Inv;
  }

  lemma JobKeepsOrigins(rows: Table, at: int)
    requires forall id :: id in rows ==> WellFormed(rows[id])
    ensures SameOrigins(rows, SyncAll(rows, at))
  {
    assert SyncAll(rows, at).Keys == rows.Keys;
    hide SyncAll;
    forall id | id in rows
      ensures var row := SyncAll(rows, at)[id];
              row.requester == rows[id].requester && row.kind == rows[id].kind && row.createdAt == rows[id].createdAt
    {
      SyncIsTimely(rows, at, id);
    }
  }

  lemma MadeOnAdds(rows: Table, id: Id, row: Submission, user: int, kind: Kind, day: int)
    requires id !in rows
    ensures MadeOn(rows[id := row], user, kind, day)
         == MadeOn(rows, user, kind, day)
            + (if row.requester == user && row.kind == kind && SeoulDate(row.createdAt) == day then {id} else {})
  {
    hide SeoulDate;
  }

  lemma MadeOnWithin(rows: Table, user: int, kind: Kind, day: int)
    ensures |MadeOn(rows, user, kind, day)| <= |MadeSince(rows, user, kind, StartOfSeoulDay(day))|
  {
    hide SeoulDate, StartOfSeoulDay;
    forall id | id in MadeOn(rows, user, kind, day)
      ensures rows[id].createdAt >= StartOfSeoulDay(day)
    {
      DayBounds(day, rows[id].createdAt);
    }
    SubsetSize(MadeOn(rows, user, kind, day), MadeSince(rows, user, kind, StartOfSeoulDay(day)));
  }

  lemma CreateKeepsLimit(rows: Table, id: Id, form: Form, at: int)
    requires LimitKept(rows) && id !in rows && form.Complete() && DecideCreate(rows, form, at).Created?
    ensures LimitKept(rows[id := DecideCreate(rows, form, at).row])
  {
    hide SeoulDate, StartOfSeoulDay, ScheduleValid, MadeOn, MadeSince;
    var row := DecideCreate(rows, form, at).row;
    var next := rows[id := row];
    assert !LimitReached(rows, row.requester, row.kind, at);
    forall user, kind, day
      ensures DailyLimit(kind).Some? ==> |MadeOn(next, user, kind, day)| <= DailyLimit(kind).value
    {
      MadeOnAdds(rows, id, row, user, kind, day);
      MadeOnWithin(rows, user, kind, day);
    }
  }

  lemma {:induction false} LimitIsKept(steps: seq<Step>)
    requires ValidRun(steps)
    ensures LimitKept(Reached(steps).rows)
    decreases |steps|
  {
    hide LimitKept, DecideCreate, SyncAll, AfterWrite, ContentOf, SameOrigins;
    if steps == [] {
      NothingMade();
    } else {
      var n := |steps| - 1;
      LimitIsKept(steps[..n]);
      RunKeepsInv(steps[..n]);
      var w := Reached(steps[..n]);
      match steps[n]
      case Create(id, form, at) => CreateKeepsLimit(w.rows, id, form, at);
      case Write(request) =>
        WriteKeepsOrigins(w, request);
        LimitCarriesOver(w.rows, Next(w, Write(request)).rows);
      case RunJob(at) =>
        JobKeepsOrigins(w.rows, at);
        LimitCarriesOver(w.rows, SyncAll(w.rows, at));
      case _ =>
    }
  }

  lemma NothingMade()
    ensures LimitKept(map[])
  {
    assert forall user, kind, day :: MadeOn(map[], user, kind, day) == {};
  }

  /** No user ever has more than five stories and three event banners that were made on the same
      Seoul day, whatever became of them, however requests overlap and whatever their clocks read. */
  lemma DailyLimitHolds(steps: seq<Step>, user: int, day: int)
    requires ValidRun(steps)
    ensures var rows := Reached(steps).rows;
            var made := set id | && id in rows && rows[id].requester == user
                                 && StartOfSeoulDay(day) <= rows[id].createdAt < StartOfSeoulDay(day + 1);
            |set id | id in made && rows[id].kind == Story| <= 5
                && |set id | id in made && rows[id].kind == EventBanner| <= 3
  {
    LimitIsKept(steps);
    hide ValidRun, Reached, SeoulDate, StartOfSeoulDay;
    var rows := Reached(steps).rows;
    var made := set id | && id in rows && rows[id].requester == user
                         && StartOfSeoulDay(day) <= rows[id].createdAt < StartOfSeoulDay(day + 1);
    forall id | id in rows
      ensures SeoulDate(rows[id].createdAt) == day
         <==> StartOfSeoulDay(day) <= rows[id].createdAt < StartOfSeoulDay(day + 1)
    {
      DayBounds(day, rows[id].createdAt);
    }
    assert (set id | id in made && rows[id].kind == Story) == MadeOn(rows, user, Story, day);
    assert (set id | id in made && rows[id].kind == EventBanner) == MadeOn(rows, user, EventBanner, day);
  }

  predicate IsFinal(rows: Table, id: Id) {
    id in rows && rows[id].status in {Ended, Canceled, Archived}
  }

  lemma WriteKeepsFinal(w: World, copy: Request, id: Id)
    requires CopyOrdered(w.rows, copy) && IsFinal(w.rows, id) && WellFormed(w.rows[id])
    ensures id in AfterWrite(w, copy).rows && AfterWrite(w, copy).rows[id] == w.rows[id]
  {
    hide Decide, WellFormed, ContentOf;
    if copy.id == id && copy.snapshot == w.rows[id] { FinalIsFinal(copy.op, copy.snapshot, copy.now); }
  }

  lemma StepKeepsFinal(w: World, step: Step, id: Id)
    requires Inv(w) && Enabled(w, step) && IsFinal(w.rows, id)
    ensures id in Next(w, step).rows && Next(w, step).rows[id] == w.rows[id]
  {
    hide ContentOf, AfterWrite, SyncAll, Remember, ShownIsApproved, DecideCreate;
    match step
    case Write(request) => WriteKeepsFinal(w, w.requests[request], id);
    case RunJob(at) => SyncIsTimely(w.rows, at, id);
    case _ =>
  }

  /** Ended, canceled and archived submissions never change again. */
  lemma {:induction false} FinalForever(steps: seq<Step>, more: seq<Step>, id: Id)
    requires ValidRun(steps) && ValidRun(steps + more) && id in Reached(steps).rows
    requires var status := Reached(steps).rows[id].status; status == Ended || status == Canceled || status == Archived
    ensures id in Reached(steps + more).rows && Reached(steps + more).rows[id] == Reached(steps).rows[id]
    decreases |more|
  {
    hide Next, Enabled, Inv;
    if more == [] {
      assert steps + more == steps;
    } else {
      var n := |more| - 1;
      assert (steps + more)[..|steps + more| - 1] == steps + more[..n];
      FinalForever(steps, more[..n], id);
      RunKeepsInv(steps + more[..n]);
      StepKeepsFinal(Reached(steps + more[..n]), more[n], id);
    }
  }
}
