/** Runs of the aggregation job while events keep arriving. */
module AggregationRuns {
  import opened Wrappers
  import opened SeoulTime
  import opened Aggregation

  // ---------------------------------------------------------------- steps

  /** A run that has listed its days: now is its clock reading, visible the events it could see. */
  datatype Run = Run(now: int, days: seq<int>, visible: set<Key>)

  /** counted are the events that the daily rows account for. */
  datatype World = World(
    events: Events,
    daily: Daily,
    watermark: Option<int>,
    counted: set<Key>,
    run: Option<Run>,
    clock: int)

  const INITIAL := World(map[], map[], None, {}, None, 0)

  /** Listing the days and recomputing them are separate statements: events may appear in between.
      The job lock admits one run at a time. A run may abort. */
  datatype Step =
    | Appear(k: Key, event: Event, at: int)
    | Look(now: int, days: seq<int>, at: int)
    | Finish(doomed: set<Key>, at: int)
    | Abort(at: int)

  ghost predicate Enabled(w: World, step: Step) {
    && w.clock <= step.at
    && match step
       case Appear(k, event, _) => k !in w.events && event.receivedAt > 0
       // clock readings do not go back from run to run
       case Look(now, days, at) =>
         && w.run.None? && now <= at && (w.watermark.Some? ==> w.watermark.value <= now)
         && Lists(days, Touched(w.events, w.watermark, now))
       case Finish(doomed, at) => w.run.Some? && Doomed(w.events, w.run.value.now, doomed)
       case Abort(_) => w.run.Some?
  }

  /** An event becomes visible less than five minutes after it was received. */
  predicate OnTime(step: Step) { step.Appear? ==> step.at < step.event.receivedAt + OVERLAP_MS }

  function OfDays(events: Events, days: seq<int>): set<Key> { set k | k in events && events[k].Day() in days }

  ghost function AfterFinish(w: World, run: Run, doomed: set<Key>): World {
    World(w.events - doomed,
          Recomputed(w.events, w.daily, run.days),
          Some(run.now),
          w.counted + OfDays(w.events, run.days) - doomed,
          None,
          w.clock)
  }

  ghost function Next(w: World, step: Step): World
    requires Enabled(w, step)
  {
    var w1 := match step
      case Appear(k, event, _) => w.(events := w.events[k := event])
      case Look(now, days, _) => w.(run := Some(Run(now, days, w.events.Keys)))
      case Finish(doomed, _) => AfterFinish(w, w.run.value, doomed)
      case Abort(_) => w.(run := None);
    w1.(clock := step.at)
  }

  // ---------------------------------------------------------------- the invariant

  function Only(events: Events, keys: set<Key>): Events { map k | k in events && k in keys :: events[k] }

  /** The day is not older than the retention window of the last finished run. */
  predicate InWindow(watermark: Option<int>, day: int) {
    watermark.Some? ==> day >= RetentionStart(watermark.value)
  }

  ghost predicate DailyCounts(w: World) {
    forall day :: InWindow(w.watermark, day) ==> DailyOn(w.daily, day) == GroupBy(OnDay(Only(w.events, w.counted), day))
  }

  ghost predicate RunIsCurrent(w: World) {
    && w.counted <= w.events.Keys
    && (w.watermark.Some? ==> w.watermark.value <= w.clock)
    && (w.run.Some? ==>
          var Run(now, days, visible) := w.run.value;
          && now <= w.clock && (w.watermark.Some? ==> w.watermark.value <= now)
          && Increasing(days) && (forall day :: day in days ==> day >= RetentionStart(now))
          && visible <= w.events.Keys)
  }

  /** What holds however late events become visible. */
  ghost predicate Base(w: World) { DailyCounts(w) && RunIsCurrent(w) }

  /** An event of the window that is not counted yet will be seen by the next run, */
  ghost predicate RestIsRecent(w: World) {
    forall k :: k in w.events && k !in w.counted && InWindow(w.watermark, w.events[k].Day()) ==>
      w.events[k].receivedAt > Since(w.watermark)
  }

  /** and one that the current run does not count either, by the run after it. */
  ghost predicate RunSees(w: World) {
    w.run.Some? ==>
      var Run(now, days, visible) := w.run.value;
      forall k :: k in w.events && k !in w.counted && w.events[k].Day() >= RetentionStart(now) ==>
        w.events[k].Day() in days || (k !in visible && w.events[k].receivedAt > now - OVERLAP_MS)
  }

  /** What holds when events become visible in time. */
  ghost predicate Inv(w: World) { Base(w) && RestIsRecent(w) && RunSees(w) }

  lemma WindowsShrink(earlier: int, later: int)
    requires earlier <= later
    ensures RetentionStart(earlier) <= RetentionStart(later)
  {
    hide SeoulDate, AddSeoulDays;
    DatesInOrder(earlier, later);
    AddDaysIsAddition(SeoulDate(earlier), -RETENTION_DAYS);
    AddDaysIsAddition(SeoulDate(later), -RETENTION_DAYS);
  }

  /** After a run, each day of its window holds the group-by of the counted events. */
  lemma FinishedDay(w: World, run: Run, doomed: set<Key>, day: int)
    requires Base(w) && w.run == Some(run) && Doomed(w.events, run.now, doomed) && day >= RetentionStart(run.now)
    ensures var w1 := AfterFinish(w, run, doomed);
            && InWindow(w.watermark, day)
            && DailyOn(w1.daily, day) == GroupBy(OnDay(Only(w1.events, w1.counted), day))
            && OnDay(w1.events, day) == OnDay(w.events, day)
            && OnDay(Only(w1.events, w1.counted), day)
               == if day in run.days then OnDay(w.events, day) else OnDay(Only(w.events, w.counted), day)
  {
    hide SeoulDate, GroupBy, RetentionStart, StartOfSeoulDay, Recomputed, Expired;
    if w.watermark.Some? { WindowsShrink(w.watermark.value, run.now); }
    RecomputedDay(w.events, w.daily, run.days, day);
    DeletionKeepsWindow(w.events, run.now, doomed, day);
    var w1 := AfterFinish(w, run, doomed);
    CountedAfterFinish(w, run, doomed, day);
  }

  lemma CountedAfterFinish(w: World, run: Run, doomed: set<Key>, day: int)
    requires OnDay(w.events - doomed, day) == OnDay(w.events, day)
    ensures var w1 := AfterFinish(w, run, doomed);
            OnDay(Only(w1.events, w1.counted), day)
              == if day in run.days then OnDay(w.events, day) else OnDay(Only(w.events, w.counted), day)
  {
    hide SeoulDate, Recomputed;
    assert forall k :: k in w.events && w.events[k].Day() == day ==> k in OnDay(w.events - doomed, day);
  }

  lemma FinishKeepsBase(w: World, doomed: set<Key>, at: int)
    requires Base(w) && Enabled(w, Finish(doomed, at))
    ensures Base(Next(w, Finish(doomed, at)))
  {
    hide SeoulDate, GroupBy, RetentionStart, StartOfSeoulDay, Recomputed, Expired, OnDay, DailyOn;
    var run := w.run.value;
    var w1 := Next(w, Finish(doomed, at));
    forall day | InWindow(w1.watermark, day)
      ensures InWindow(w.watermark, day)
      ensures DailyOn(w1.daily, day) == GroupBy(OnDay(Only(w1.events, w1.counted), day))
    {
      FinishedDay(w, run, doomed, day);
    }
  }

  lemma StepKeepsBase(w: World, step: Step)
    requires Base(w) && Enabled(w, step)
    ensures Base(Next(w, step))
  {
    match step
    case Finish(doomed, at) => FinishKeepsBase(w, doomed, at);
    case Appear(k, event, at) =>
      hide SeoulDate, GroupBy, RetentionStart, DailyOn;
      assert Only(w.events[k := event], w.counted) == Only(w.events, w.counted);
    case _ =>
      hide SeoulDate, GroupBy, RetentionStart, DailyOn;
  }

  lemma FinishKeepsRest(w: World, doomed: set<Key>, at: int)
    requires Inv(w) && Enabled(w, Finish(doomed, at))
    ensures RestIsRecent(Next(w, Finish(doomed, at)))
  {
    hide DailyCounts, SeoulDate, RetentionStart, StartOfSeoulDay, Recomputed, Expired;
  }

  lemma StepKeepsInv(w: World, step: Step)
    requires Inv(w) && Enabled(w, step) && OnTime(step)
    ensures Inv(Next(w, step))
  {
    StepKeepsBase(w, step);
    hide DailyCounts, SeoulDate, RetentionStart, Recomputed;
    if step.Finish? { FinishKeepsRest(w, step.doomed, step.at); }
  }

  // ---------------------------------------------------------------- runs

  ghost predicate ValidRun(steps: seq<Step>)
    decreases |steps|, 0
  {
    steps == [] ||
    var n := |steps| - 1;
    ValidRun(steps[..n]) && Enabled(Reached(steps[..n]), steps[n])
  }

  ghost function Reached(steps: seq<Step>): World
    requires ValidRun(steps)
    decreases |steps|, 1
  {
    if steps == [] then INITIAL else Next(Reached(steps[..|steps| - 1]), steps[|steps| - 1])
  }

  /** No event of the run becomes visible five minutes late or later. */
  predicate AllOnTime(steps: seq<Step>) { forall i :: 0 <= i < |steps| ==> OnTime(steps[i]) }

  lemma InitialInv()
    ensures Inv(INITIAL)
  {
    forall day
      ensures DailyOn(INITIAL.daily, day) == GroupBy(OnDay(Only(INITIAL.events, INITIAL.counted), day))
    {
      assert OnDay(Only(INITIAL.events, INITIAL.counted), day) == map[];
      NothingGrouped();
    }
  }

  lemma {:induction false} RunKeepsBase(steps: seq<Step>)
    requires ValidRun(steps)
    ensures Base(Reached(steps))
  {
    hide Next, Enabled, Base;
    if steps == [] {
      InitialInv();
    } else {
      RunKeepsBase(steps[..|steps| - 1]);
      StepKeepsBase(Reached(steps[..|steps| - 1]), steps[|steps| - 1]);
    }
  }

  lemma {:induction false} RunKeepsInv(steps: seq<Step>)
    requires ValidRun(steps) && AllOnTime(steps)
    ensures Inv(Reached(steps))
  {
    hide Next, Enabled, Inv;
    if steps == [] {
      InitialInv();
    } else {
      RunKeepsInv(steps[..|steps| - 1]);
      StepKeepsInv(Reached(steps[..|steps| - 1]), steps[|steps| - 1]);
    }
  }

  /** After every finished run, every day of the retention window has the plain group-by of its
      counted events, and these include every event that was visible when the run began to look. */
  lemma DailyIsGroupBy(steps: seq<Step>, doomed: set<Key>, at: int, day: int)
    requires ValidRun(steps) && AllOnTime(steps) && Enabled(Reached(steps), Finish(doomed, at))
    requires day >= RetentionStart(Reached(steps).run.value.now)
    ensures var w, w1 := Reached(steps), Next(Reached(steps), Finish(doomed, at));
            && DailyOn(w1.daily, day) == GroupBy(OnDay(Only(w1.events, w1.counted), day))
            && (forall k :: k in w.events && w.events[k].Day() == day ==>
                  && k in w1.events && w1.events[k] == w.events[k]
                  && (k in w.run.value.visible ==> k in w1.counted))
  {
    var w := Reached(steps);
    RunKeepsInv(steps);
    hide SeoulDate, GroupBy, RetentionStart, StartOfSeoulDay, Recomputed, Expired, DailyOn, ValidRun;
    FinishedDay(w, w.run.value, doomed, day);
    assert forall k :: k in w.events && w.events[k].Day() == day ==> k in OnDay(w.events, day);
    assert forall k :: k in OnDay(AfterFinish(w, w.run.value, doomed).events, day) ==> k !in doomed;
  }

  /** Once a day has left the window of a finished run, no later step changes its rows. */
  lemma StepKeepsOldDays(w: World, step: Step, day: int)
    requires Base(w) && Enabled(w, step) && !InWindow(w.watermark, day)
    ensures !InWindow(Next(w, step).watermark, day) && DailyOn(Next(w, step).daily, day) == DailyOn(w.daily, day)
  {
    hide SeoulDate, GroupBy, RetentionStart, StartOfSeoulDay, Recomputed, Expired, DailyOn;
    if step.Finish? {
      WindowsShrink(w.watermark.value, w.run.value.now);
      RecomputedDay(w.events, w.daily, w.run.value.days, day);
    }
  }

  lemma {:induction false} OldDaysNeverChange(steps: seq<Step>, more: seq<Step>, day: int)
    requires ValidRun(steps) && ValidRun(steps + more) && !InWindow(Reached(steps).watermark, day)
    ensures !InWindow(Reached(steps + more).watermark, day)
    ensures DailyOn(Reached(steps + more).daily, day) == DailyOn(Reached(steps).daily, day)
    decreases |more|
  {
    hide Next, Enabled, Base, InWindow, DailyOn;
    if more == [] {
      assert steps + more == steps;
    } else {
      var n := |more| - 1;
      assert (steps + more)[..|steps + more| - 1] == steps + more[..n];
      OldDaysNeverChange(steps, more[..n], day);
      RunKeepsBase(steps + more[..n]);
      StepKeepsOldDays(Reached(steps + more[..n]), more[n], day);
    }
  }

  /** No run deletes an event of its window. */
  lemma WindowIsNeverDeleted(steps: seq<Step>, doomed: set<Key>, at: int, k: Key)
    requires ValidRun(steps) && Enabled(Reached(steps), Finish(doomed, at)) && k in doomed
    ensures k in Reached(steps).events && Reached(steps).events[k].Day() < RetentionStart(Reached(steps).run.value.now)
  {
    var w := Reached(steps);
    hide SeoulDate, RetentionStart, Recomputed, ValidRun;
    DayBounds(w.events[k].Day(), w.events[k].startedAt);
  }

  // ---------------------------------------------------------------- events that become visible late

  /** A group-by tells a table of events from every part of it. */
  lemma GroupByIdentifies(all: Events, keys: set<Key>)
    ensures GroupBy(Only(all, keys)) == GroupBy(all) <==> forall k :: k in all ==> k in keys
  {
    hide GroupOf, Totals;
    var part := Only(all, keys);
    if forall k :: k in all ==> k in keys {
      assert part == all;
    } else {
      var k :| k in all && k !in keys;
      var group := GroupOf(all[k]);
      var few, many := Members(part, group), Members(all, group);
      assert group in Groups(all);
      GroupByKeys(all);
      GroupByKeys(part);
      forall x | x in few
        ensures x in many - {k}
      {
        assert x in part && part[x] == all[x];
      }
      assert few.Keys <= many.Keys - {k};
      SubsetSize(few.Keys, many.Keys - {k});
      TotalsCountEveryEvent(few);
      TotalsCountEveryEvent(many);
    }
  }

  /** A run counts an event of its window that was not counted yet exactly when some event of that
      day was received since the watermark less five minutes, however late it became visible. */
  lemma CountedExactly(w: World, look: Step, finish: Step, k: Key)
    requires look.Look? && Enabled(w, look) && finish.Finish? && Enabled(Next(w, look), finish)
    requires k in w.events && k !in w.counted && w.events[k].Day() >= RetentionStart(look.now)
    ensures k in Next(Next(w, look), finish).counted
       <==> exists j ::
              j in w.events && w.events[j].Day() == w.events[k].Day() && w.events[j].receivedAt > Since(w.watermark)
  {
    hide SeoulDate, RetentionStart, StartOfSeoulDay, Recomputed, Expired;
    var day := w.events[k].Day();
    DeletionKeepsWindow(w.events, look.now, finish.doomed, day);
    assert k in OnDay(w.events, day);
    assert k in OnDay(w.events - finish.doomed, day);
    assert day in look.days <==> day in Touched(w.events, w.watermark, look.now);
  }

  /** In every run, late events included: when nothing appears while the job works, a day of its
      window has the plain group-by of all its events exactly when the job recomputes the day or
      all events of the day were counted before. */
  lemma QuietDayExactly(steps: seq<Step>, look: Step, finish: Step, day: int)
    requires ValidRun(steps) && look.Look? && Enabled(Reached(steps), look)
    requires finish.Finish? && Enabled(Next(Reached(steps), look), finish)
    requires day >= RetentionStart(look.now)
    ensures var w := Reached(steps);
            DailyOn(Next(Next(w, look), finish).daily, day) == GroupBy(OnDay(w.events, day))
            <==> || day in Touched(w.events, w.watermark, look.now)
                 || forall k :: k in w.events && w.events[k].Day() == day ==> k in w.counted
  {
    hide Base, Enabled, Next, Touched, DailyOn, GroupBy, RetentionStart, SeoulDate;
    RunKeepsBase(steps);
    StepKeepsBase(Reached(steps), look);
    QuietDayInWorld(Reached(steps), look, finish, day);
    hide ValidRun, Reached;
    var w := Reached(steps);
    OnDayOnly(w.events, w.counted, day);
    GroupByIdentifies(OnDay(w.events, day), w.counted);
    assert forall k :: k in OnDay(w.events, day) <==> k in w.events && w.events[k].Day() == day;
  }

  lemma QuietDayInWorld(w: World, look: Step, finish: Step, day: int)
    requires look.Look? && Enabled(w, look) && Base(Next(w, look))
    requires finish.Finish? && Enabled(Next(w, look), finish)
    requires day >= RetentionStart(look.now)
    ensures DailyOn(Next(Next(w, look), finish).daily, day)
         == GroupBy(if day in Touched(w.events, w.watermark, look.now) then OnDay(w.events, day)
                    else OnDay(Only(w.events, w.counted), day))
  {
    hide Base, Touched, SeoulDate, GroupBy, RetentionStart, Recomputed, DailyOn, Doomed;
    var w1 := Next(w, look);
    FinishedDay(w1, w1.run.value, finish.doomed, day);
  }

  lemma OnDayOnly(events: Events, keys: set<Key>, day: int)
    ensures OnDay(Only(events, keys), day) == Only(OnDay(events, day), keys)
  {
    hide SeoulDate;
  }

  /** Events that become visible in time leave only days to recompute or days that are counted. */
  lemma TouchedOrCounted(w: World, look: Step, day: int)
    requires Inv(w) && look.Look? && Enabled(w, look) && day >= RetentionStart(look.now)
    ensures || day in Touched(w.events, w.watermark, look.now)
            || forall k :: k in w.events && w.events[k].Day() == day ==> k in w.counted
  {
    hide DailyCounts, SeoulDate, RetentionStart;
    if w.watermark.Some? { WindowsShrink(w.watermark.value, look.now); }
  }

  /** When events become visible in time and none appears while the job works, its window has the
      plain group-by of all events, and its impressions and wall impressions are their number. */
  lemma QuietRunIsExact(steps: seq<Step>, look: Step, finish: Step, day: int)
    requires ValidRun(steps) && AllOnTime(steps) && look.Look? && Enabled(Reached(steps), look)
    requires finish.Finish? && Enabled(Next(Reached(steps), look), finish)
    requires day >= RetentionStart(look.now)
    ensures var w := Reached(steps);
            var rows := DailyOn(Next(Next(w, look), finish).daily, day);
            rows == GroupBy(OnDay(w.events, day)) && EventCount(rows) == |OnDay(w.events, day)|
  {
    hide Inv, Enabled, Next, Touched, DailyOn, GroupBy, RetentionStart, SeoulDate;
    RunKeepsInv(steps);
    TouchedOrCounted(Reached(steps), look, day);
    QuietDayExactly(steps, look, finish, day);
    GroupByCountsEvents(OnDay(Reached(steps).events, day));
  }

  /** Row by row: after such a run, the row of a day of its window, a submission and a device exists
      exactly when some event starts on that day in Seoul with that submission on that device, and
      counts exactly those events. */
  lemma QuietRowsExactly(steps: seq<Step>, look: Step, finish: Step, day: int, submission: int, device: int)
    requires ValidRun(steps) && look.Look? && Enabled(Reached(steps), look)
    requires forall k :: 0 <= k < |steps| && steps[k].Appear? ==>
               steps[k].at - steps[k].event.receivedAt < 5 * 60 * 1000
    requires finish.Finish? && Enabled(Next(Reached(steps), look), finish)
    requires day >= SeoulDate(look.now) - 90
    ensures var events := Reached(steps).events;
            var daily := Next(Next(Reached(steps), look), finish).daily;
            var group := Group(day, submission, device);
            var mine := map k | k in events && events[k].submission == submission && events[k].device == device
                          && StartOfSeoulDay(day) <= events[k].startedAt < StartOfSeoulDay(day + 1) :: events[k];
            && (group in daily <==> exists k :: k in mine)
            && (group in daily ==>
                  && daily[group].impressions == |set k | k in mine && !mine[k].wall|
                  && daily[group].completed == |set k | k in mine && !mine[k].wall && mine[k].completed|
                  && daily[group].durationMs == SumDurations(map k | k in mine && !mine[k].wall :: mine[k])
                  && daily[group].wallImpressions == |set k | k in mine && mine[k].wall|)
  {
    assert AllOnTime(steps);
    hide ValidRun, Reached, AllOnTime, Enabled, Next, GroupBy, SumDurations, SeoulDate, StartOfSeoulDay, AddSeoulDays;
    var events := Reached(steps).events;
    AddDaysIsAddition(SeoulDate(look.now), -RETENTION_DAYS);
    QuietRunIsExact(steps, look, finish, day);
    GroupByDay(events, day);
    var daily, group := Next(Next(Reached(steps), look), finish).daily, Group(day, submission, device);
    assert DailyOn(daily, day) == DailyOn(GroupBy(events), day);
    assert group in daily <==> group in DailyOn(daily, day);
    assert group in GroupBy(events) <==> group in DailyOn(GroupBy(events), day);
    GroupingExactly(events, day, submission, device);
  }

  lemma RunExtends(steps: seq<Step>, step: Step)
    requires ValidRun(steps) && Enabled(Reached(steps), step)
    ensures ValidRun(steps + [step]) && Reached(steps + [step]) == Next(Reached(steps), step)
  {
    hide Enabled, Next;
    assert (steps + [step])[..|steps + [step]| - 1] == steps;
  }

  /** The five minutes are sharp: in this run the event becomes visible exactly five minutes after
      it was received, and the run that follows leaves it out. */
  lemma LateEventIsMissed(k: Key, event: Event, t: int)
    requires event.receivedAt > 0 && t == event.receivedAt + OVERLAP_MS && event.Day() >= RetentionStart(t)
    ensures var steps :=
              [] + [Look(t, [], t)] + [Finish({}, t)] + [Appear(k, event, t)] + [Look(t, [], t)] + [Finish({}, t)];
            && ValidRun(steps)
            && Reached(steps).events == map[k := event] && Reached(steps).counted == {}
            && DailyOn(Reached(steps).daily, event.Day()) == map[] != GroupBy(OnDay(Reached(steps).events, event.Day()))
  {
    var start: seq<Step> := [];
    assert ValidRun(start) && Reached(start) == INITIAL;
    hide ValidRun, Reached, SeoulDate, RetentionStart, StartOfSeoulDay;
    EmptyRun(start, t);
    var before := start + [Look(t, [], t)] + [Finish({}, t)];
    RunExtends(before, Appear(k, event, t));
    LateRun(before + [Appear(k, event, t)], k, event, t);
  }

  lemma EmptyRun(steps: seq<Step>, t: int)
    requires ValidRun(steps) && Reached(steps) == INITIAL && t > 0
    ensures ValidRun(steps + [Look(t, [], t)] + [Finish({}, t)])
    ensures Reached(steps + [Look(t, [], t)] + [Finish({}, t)]) == World(map[], map[], Some(t), {}, None, t)
  {
    hide ValidRun, Reached, SeoulDate, RetentionStart, StartOfSeoulDay;
    assert Touched(map[], None, t) == {};
    RunExtends(steps, Look(t, [], t));
    assert Expired(map[], t) == {};
    RunExtends(steps + [Look(t, [], t)], Finish({}, t));
  }

  lemma LateRun(steps: seq<Step>, k: Key, event: Event, t: int)
    requires ValidRun(steps) && Reached(steps) == World(map[k := event], map[], Some(t), {}, None, t)
    requires t == event.receivedAt + OVERLAP_MS && event.Day() >= RetentionStart(t)
    ensures var more := steps + [Look(t, [], t)] + [Finish({}, t)];
            && ValidRun(more)
            && Reached(more).events == map[k := event] && Reached(more).counted == {}
            && DailyOn(Reached(more).daily, event.Day()) == map[] != GroupBy(OnDay(Reached(more).events, event.Day()))
  {
    hide ValidRun, Reached, SeoulDate, RetentionStart, GroupBy, DailyOn, OnDay, Expired;
    var events: Events := map[k := event];
    assert Touched(events, Some(t), t) == {};
    RunExtends(steps, Look(t, [], t));
    NotExpired(k, event, t);
    RunExtends(steps + [Look(t, [], t)], Finish({}, t));
    SomethingGrouped(k, event);
  }

  lemma SomethingGrouped(k: Key, event: Event)
    ensures DailyOn(map[], event.Day()) == map[] != GroupBy(OnDay(map[k := event], event.Day()))
  {
    hide SeoulDate;
    var events: Events := map[k := event];
    assert k in OnDay(events, event.Day());
    assert GroupOf(event) in Groups(OnDay(events, event.Day()));
    GroupByKeys(OnDay(events, event.Day()));
  }

  lemma NotExpired(k: Key, event: Event, t: int)
    requires event.Day() >= RetentionStart(t)
    ensures Expired(map[k := event], t) == {}
  {
    hide RetentionStart;
    DayBounds(event.Day(), event.startedAt);
    DayStartsIncrease(RetentionStart(t), event.Day());
  }
}
