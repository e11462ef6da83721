/** Daily totals of play events, kept incrementally: play-event-aggregation.job.ts. */
module Aggregation {
  import opened Wrappers
  import opened SeoulTime

  type Key = int

  /** wall tells that the placement is WALL; a missing placement counts as not WALL. */
  datatype Event = Event(submission: int, device: int, startedAt: int, receivedAt: int, durationMs: int,
      completed: bool, wall: bool)
  {
    function Day(): int { SeoulDate(startedAt) }
  }

  type Events = map<Key, Event>

  datatype Group = Group(day: int, submission: int, device: int)

  datatype Row = Row(impressions: nat, completed: nat, durationMs: int, wallImpressions: nat)

  type Daily = map<Group, Row>

  const RETENTION_DAYS := 90
  const OVERLAP_MS := 5 * 60 * 1000
  const RETENTION_BATCH := 50_000

  // ---------------------------------------------------------------- the plain group-by

  function GroupOf(event: Event): Group { Group(event.Day(), event.submission, event.device) }

  ghost function SumDurations(events: Events): int {
    if events.Keys == {} then 0
    else
      assert (forall k :: k !in events.Keys) ==> events.Keys == {};
      var k :| k in events.Keys;
      events[k].durationMs + SumDurations(events - {k})
  }

  function NotWall(events: Events): Events { map k | k in events && !events[k].wall :: events[k] }

  /** count(*) filter (where f). */
  function Where(events: Events, f: Event -> bool): set<Key> { set k | k in events && f(events[k]) }

  const IS_WALL: Event -> bool := (event: Event) => event.wall
  const IS_IMPRESSION: Event -> bool := (event: Event) => !event.wall
  const IS_COMPLETION: Event -> bool := (event: Event) => !event.wall && event.completed

  ghost function Totals(events: Events): Row {
    Row(|Where(events, IS_IMPRESSION)|, |Where(events, IS_COMPLETION)|,
        SumDurations(NotWall(events)),
        |Where(events, IS_WALL)|)
  }

  function Members(events: Events, group: Group): Events {
    map k | k in events && GroupOf(events[k]) == group :: events[k]
  }

  function Groups(events: Events): set<Group> { set k | k in events :: GroupOf(events[k]) }

  ghost function GroupBy(events: Events): Daily {
    map group | group in Groups(events) :: Totals(Members(events, group))
  }

  /** Every event is counted once, as an impression or as a wall impression. */
  lemma TotalsCountEveryEvent(events: Events)
    ensures Totals(events).impressions + Totals(events).wallImpressions == |events|
    ensures Totals(events).completed <= Totals(events).impressions
  {
    assert Where(events, IS_WALL) + Where(events, IS_IMPRESSION) == events.Keys;
    SubsetSize(Where(events, IS_COMPLETION), Where(events, IS_IMPRESSION));
  }

  /** The order in which durations are added does not matter. */
  lemma {:induction false} SumWithout(events: Events, k: Key)
    requires k in events
    ensures SumDurations(events) == events[k].durationMs + SumDurations(events - {k})
    decreases |events|
  {
    assert events.Keys != {};
    var first :| first in events.Keys
      && SumDurations(events) == events[first].durationMs + SumDurations(events - {first});
    if first != k {
      assert (events - {first}).Keys == events.Keys - {first};
      SumWithout(events - {first}, k);
      assert (events - {k}).Keys == events.Keys - {k};
      SumWithout(events - {k}, first);
      assert events - {first} - {k} == events - {k} - {first};
    }
  }

  /** One more event in a group, added to the columns it counts in. */
  function Add(row: Row, event: Event): Row {
    if event.wall then row.(wallImpressions := row.wallImpressions + 1)
    else row.(impressions := row.impressions + 1,
              completed := row.completed + (if event.completed then 1 else 0),
              durationMs := row.durationMs + event.durationMs)
  }

  const NO_EVENTS := Row(0, 0, 0, 0)

  function RowOf(daily: Daily, group: Group): Row {
    if group in daily then daily[group] else NO_EVENTS
  }

  lemma DurationsAdd(events: Events, k: Key, event: Event)
    requires k !in events
    ensures SumDurations(NotWall(events[k := event]))
         == SumDurations(NotWall(events)) + (if event.wall then 0 else event.durationMs)
  {
    var more := events[k := event];
    if event.wall {
      assert NotWall(more) == NotWall(events);
    } else {
      SumWithout(NotWall(more), k);
      assert NotWall(more) - {k} == NotWall(events);
    }
  }

  lemma TotalsAdd(events: Events, k: Key, event: Event)
    requires k !in events
    ensures Totals(events[k := event]) == Add(Totals(events), event)
  {
    hide SumDurations, NotWall, Where;
    DurationsAdd(events, k, event);
    WhereAdds(events, k, event, IS_IMPRESSION);
    WhereAdds(events, k, event, IS_COMPLETION);
    WhereAdds(events, k, event, IS_WALL);
  }

  lemma WhereAdds(events: Events, k: Key, event: Event, f: Event -> bool)
    requires k !in events
    ensures |Where(events[k := event], f)| == |Where(events, f)| + (if f(event) then 1 else 0)
  {
    assert Where(events[k := event], f) == Where(events, f) + (if f(event) then {k} else {});
  }

  lemma EmptyTotals(events: Events)
    requires events.Keys == {}
    ensures Totals(events) == NO_EVENTS
  {
    assert forall f :: Where(events, f) == {};
    assert NotWall(events).Keys == {};
  }

  lemma GroupsAdd(events: Events, k: Key, event: Event)
    requires k !in events
    ensures Groups(events[k := event]) == Groups(events) + {GroupOf(event)}
  {
    hide GroupOf;
    var more := events[k := event];
    assert k in more;
    forall other | other in Groups(events)
      ensures other in Groups(more)
    {
      var x :| x in events && GroupOf(events[x]) == other;
      assert x in more && more[x] == events[x];
    }
  }

  lemma MembersAdd(events: Events, k: Key, event: Event, group: Group)
    requires k !in events
    ensures Members(events[k := event], group)
         == if group == GroupOf(event) then Members(events, group)[k := event] else Members(events, group)
  {
    hide GroupOf;
  }

  /** Adding an event changes its own group and no other. */
  lemma GroupByAdds(events: Events, k: Key, event: Event)
    requires k !in events
    ensures var group := GroupOf(event);
            GroupBy(events[k := event])
              == GroupBy(events)[group := Add(RowOf(GroupBy(events), group), event)]
  {
    hide Totals, GroupOf, Members, Add;
    var group := GroupOf(event);
    GroupsAdd(events, k, event);
    MembersAdd(events, k, event, group);
    TotalsAdd(Members(events, group), k, event) by { MembersWithin(events, group); }
    if group !in Groups(events) {
      MembersWithin(events, group);
      EmptyTotals(Members(events, group));
    }
    forall other | other in Groups(events) && other != group
      ensures Members(events[k := event], other) == Members(events, other)
    {
      MembersAdd(events, k, event, other);
    }
  }

  lemma MembersWithin(events: Events, group: Group)
    ensures Members(events, group).Keys <= events.Keys
    ensures group !in Groups(events) ==> Members(events, group).Keys == {}
  {
    hide GroupOf;
    assert forall k :: k in events ==> GroupOf(events[k]) in Groups(events);
    assert forall k :: k in Members(events, group) ==> GroupOf(events[k]) == group;
  }

  /** The impressions and wall impressions of all rows. */
  ghost function EventCount(daily: Daily): int {
    if daily.Keys == {} then 0
    else
      var group :| group in daily.Keys;
      daily[group].impressions + daily[group].wallImpressions + EventCount(daily - {group})
  }

  lemma {:induction false} CountWithout(daily: Daily, group: Group)
    requires group in daily
    ensures EventCount(daily) == daily[group].impressions + daily[group].wallImpressions + EventCount(daily - {group})
    decreases |daily|
  {
    var first :| first in daily.Keys
      && EventCount(daily) == daily[first].impressions + daily[first].wallImpressions + EventCount(daily - {first});
    if first != group {
      assert (daily - {first}).Keys == daily.Keys - {first};
      CountWithout(daily - {first}, group);
      assert (daily - {group}).Keys == daily.Keys - {group};
      CountWithout(daily - {group}, first);
      assert daily - {first} - {group} == daily - {group} - {first};
    }
  }

  lemma CountAdds(daily: Daily, group: Group, event: Event)
    ensures EventCount(daily[group := Add(RowOf(daily, group), event)]) == EventCount(daily) + 1
  {
    var more := daily[group := Add(RowOf(daily, group), event)];
    CountWithout(more, group);
    if group in daily {
      CountWithout(daily, group);
      assert more - {group} == daily - {group};
    } else {
      assert more - {group} == daily;
    }
  }

  /** The rows of a grouping count every event once. */
  lemma {:induction false} GroupByCountsEvents(events: Events)
    ensures EventCount(GroupBy(events)) == |events|
    decreases |events|
  {
    hide GroupBy, GroupOf, Add;
    assert (forall k :: k !in events.Keys) ==> events.Keys == {};
    if events.Keys == {} {
      assert events == map[];
      NothingGrouped();
    } else {
      var k :| k in events.Keys;
      var fewer := events - {k};
      assert fewer.Keys == events.Keys - {k};
      GroupByCountsEvents(fewer);
      assert fewer[k := events[k]] == events;
      GroupByAdds(fewer, k, events[k]);
      CountAdds(GroupBy(fewer), GroupOf(events[k]), events[k]);
    }
  }

  lemma NothingGrouped()
    ensures GroupBy(map[]) == map[]
  {
  }

  /** Which rows there are and what each of them counts, from the events alone: the row of a day, a
      submission and a device exists exactly when some event starts within that day in Seoul with
      that submission on that device, and its columns count exactly those events. */
  lemma GroupingExactly(events: Events, day: int, submission: int, device: int)
    ensures var daily := GroupBy(events);
            var group := Group(day, submission, device);
            var mine := map k | k in events && events[k].submission == submission && events[k].device == device
                          && StartOfSeoulDay(day) <= events[k].startedAt < StartOfSeoulDay(day + 1) :: events[k];
            && (group in daily <==> exists k :: k in mine)
            && (group in daily ==>
                  && daily[group].impressions == |set k | k in mine && !mine[k].wall|
                  && daily[group].completed == |set k | k in mine && !mine[k].wall && mine[k].completed|
                  && daily[group].durationMs == SumDurations(map k | k in mine && !mine[k].wall :: mine[k])
                  && daily[group].wallImpressions == |set k | k in mine && mine[k].wall|)
  {
    hide SeoulDate, StartOfSeoulDay, SumDurations;
    var group := Group(day, submission, device);
    var mine := map k | k in events && events[k].submission == submission && events[k].device == device
                  && StartOfSeoulDay(day) <= events[k].startedAt < StartOfSeoulDay(day + 1) :: events[k];
    forall k | k in events
      ensures events[k].Day() == day <==> StartOfSeoulDay(day) <= events[k].startedAt < StartOfSeoulDay(day + 1)
    {
      DayBounds(day, events[k].startedAt);
    }
    assert forall k :: k in events ==> (k in mine <==> GroupOf(events[k]) == group);
    assert mine.Keys == Members(events, group).Keys;
    assert mine == Members(events, group);
    assert (exists k :: k in mine) <==> group in Groups(events);
    assert Where(mine, IS_IMPRESSION) == set k | k in mine && !mine[k].wall;
    assert Where(mine, IS_COMPLETION) == set k | k in mine && !mine[k].wall && mine[k].completed;
    assert Where(mine, IS_WALL) == set k | k in mine && mine[k].wall;
    assert NotWall(mine) == map k | k in mine && !mine[k].wall :: mine[k];
  }

  // ---------------------------------------------------------------- one run of the job

  function OnDay(events: Events, day: int): Events {
    map k | k in events && events[k].Day() == day :: events[k]
  }

  function DailyOn(daily: Daily, day: int): Daily {
    map group | group in daily && group.day == day :: daily[group]
  }

  function RetentionStart(now: int): int { AddSeoulDays(SeoulDate(now), -RETENTION_DAYS) }

  function Since(watermark: Option<int>): int {
    if watermark.Some? then watermark.value - OVERLAP_MS else 0
  }

  /** Days with events received since the watermark that have not left the retention window. */
  function Touched(events: Events, watermark: Option<int>, now: int): set<int> {
    set k | k in events && events[k].receivedAt > Since(watermark) && events[k].Day() >= RetentionStart(now) ::
        events[k].Day()
  }

  /** The events that the insert reads: a range of start times, then the exact days. */
  function Selected(events: Events, days: seq<int>): Events
    requires days != []
  {
    var from, to := StartOfSeoulDay(days[0]), StartOfSeoulDay(AddSeoulDays(days[|days| - 1], 1));
    map k | k in events && from <= events[k].startedAt < to && events[k].Day() in days :: events[k]
  }

  ghost function Recomputed(events: Events, daily: Daily, days: seq<int>): Daily {
    if days == [] then daily
    else (map group | group in daily && group.day !in days :: daily[group]) + GroupBy(Selected(events, days))
  }

  function Expired(events: Events, now: int): set<Key> {
    set k | k in events && events[k].startedAt < StartOfSeoulDay(RetentionStart(now))
  }

  predicate Doomed(events: Events, now: int, doomed: set<Key>) {
    doomed <= Expired(events, now) && |doomed| == Min(RETENTION_BATCH, |Expired(events, now)|)
  }

  /** Which days a run recomputes: those of the last 90 in Seoul with an event received later than
      five minutes before the previous run, or ever when there was none. */
  lemma TouchedExactly(events: Events, watermark: Option<int>, now: int, day: int)
    ensures day in Touched(events, watermark, now)
       <==> && SeoulDate(now) - 90 <= day
            && exists k :: k in events
                 && StartOfSeoulDay(day) <= events[k].startedAt < StartOfSeoulDay(day + 1)
                 && (match watermark
                     case None => events[k].receivedAt > 0
                     case Some(last) => events[k].receivedAt > last - 300_000)
  {
    hide SeoulDate, StartOfSeoulDay, AddSeoulDays;
    AddDaysIsAddition(SeoulDate(now), -RETENTION_DAYS);
    forall k | k in events
      ensures events[k].Day() == day <==> StartOfSeoulDay(day) <= events[k].startedAt < StartOfSeoulDay(day + 1)
    {
      DayBounds(day, events[k].startedAt);
    }
  }

  /** Which events a run deletes: those that start before the last 90 days in Seoul, at most 50,000
      of them, and all of them when they are no more. */
  lemma DeletedExactly(events: Events, now: int, doomed: set<Key>)
    ensures Doomed(events, now, doomed)
       <==> var expired := set k | k in events && events[k].startedAt < StartOfSeoulDay(SeoulDate(now) - 90);
            doomed <= expired && |doomed| <= 50_000 && (doomed == expired || |doomed| == 50_000)
  {
    hide SeoulDate, StartOfSeoulDay, AddSeoulDays;
    AddDaysIsAddition(SeoulDate(now), -RETENTION_DAYS);
    var expired := set k | k in events && events[k].startedAt < StartOfSeoulDay(SeoulDate(now) - 90);
    assert RetentionStart(now) == SeoulDate(now) - 90;
    assert expired == Expired(events, now);
    if doomed <= expired {
      SubsetSize(doomed, expired);
      assert expired == doomed + (expired - doomed);
      assert (forall k :: k !in expired - doomed) ==> doomed == expired;
    }
  }

  /** The range of start times loses no event of the listed days. */
  lemma RangeIsExact(events: Events, days: seq<int>)
    requires days != [] && Increasing(days)
    ensures Selected(events, days) == map k | k in events && events[k].Day() in days :: events[k]
  {
    var last := days[|days| - 1];
    AddDaysIsAddition(last, 1);
    hide SeoulDate, StartOfSeoulDay, AddSeoulDays;
    forall k | k in events && events[k].Day() in days
      ensures StartOfSeoulDay(days[0]) <= events[k].startedAt < StartOfSeoulDay(AddSeoulDays(last, 1))
    {
      DayBounds(events[k].Day(), events[k].startedAt);
      DayStartsIncrease(days[0], events[k].Day());
      DayStartsIncrease(events[k].Day() + 1, last + 1);
    }
  }

  lemma DayStartsIncrease(a: int, b: int)
    requires a <= b
    ensures StartOfSeoulDay(a) <= StartOfSeoulDay(b)
  {
  }

  /** Grouping a day's events alone gives that day's part of the whole grouping. */
  lemma GroupByDay(events: Events, day: int)
    ensures DailyOn(GroupBy(events), day) == GroupBy(OnDay(events, day))
  {
    hide Totals, SeoulDate, Members;
    var part := OnDay(events, day);
    forall group: Group | group.day == day
      ensures group in Groups(events) <==> group in Groups(part)
      ensures Members(events, group) == Members(part, group)
    {
      MembersOnDay(events, group);
    }
    assert forall group :: group in Groups(part) ==> group.day == day;
  }

  lemma MembersOnDay(events: Events, group: Group)
    ensures Members(events, group) == Members(OnDay(events, group.day), group)
    ensures group in Groups(events) <==> group in Groups(OnDay(events, group.day))
  {
    hide SeoulDate;
    var part := OnDay(events, group.day);
    assert forall k :: k in events && GroupOf(events[k]) == group ==> k in part && part[k] == events[k];
    assert Members(events, group).Keys == Members(part, group).Keys;
    if group in Groups(events) {
      var k :| k in events && GroupOf(events[k]) == group;
      assert k in part && part[k] == events[k];
    }
  }

  /** A recomputed day holds the group-by of its events, any other day is left alone. */
  lemma RecomputedDay(events: Events, daily: Daily, days: seq<int>, day: int)
    requires Increasing(days)
    ensures DailyOn(Recomputed(events, daily, days), day)
         == if day in days then GroupBy(OnDay(events, day)) else DailyOn(daily, day)
  {
    hide SumDurations, SeoulDate, Totals, GroupBy;
    if days != [] {
      RangeIsExact(events, days);
      var selected := Selected(events, days);
      GroupByDay(selected, day);
      if day in days {
        assert OnDay(selected, day) == OnDay(events, day);
      } else {
        assert OnDay(selected, day) == map[];
      }
      GroupByKeys(selected);
      GroupByKeys(map[]);
    }
  }

  lemma GroupByKeys(events: Events)
    ensures GroupBy(events).Keys == Groups(events)
  {
  }

  /** Deleting expired rows leaves the events of the window alone. */
  lemma DeletionKeepsWindow(events: Events, now: int, doomed: set<Key>, day: int)
    requires doomed <= Expired(events, now) && day >= RetentionStart(now)
    ensures OnDay(events - doomed, day) == OnDay(events, day)
  {
    hide SeoulDate, StartOfSeoulDay, RetentionStart;
    forall k | k in events && events[k].Day() == day
      ensures k !in doomed
    {
      DayBounds(day, events[k].startedAt);
      DayStartsIncrease(RetentionStart(now), day);
    }
  }

  class Tables {
    var events: Events
    var daily: Daily
    var watermark: Option<int>

    constructor ()
      ensures events == map[] && daily == map[] && watermark == None
    {
      events, daily, watermark := map[], map[], None;
    }

    method TouchedDays(now: int) returns (days: seq<int>)
      ensures Lists(days, Touched(events, watermark, now))
    {
      days := [];
      var rest := Touched(events, watermark, now);
      while rest != {}
        invariant Increasing(days)
        invariant forall day :: day in Touched(events, watermark, now) <==> day in days || day in rest
        invariant forall day, later :: day in days && later in rest ==> day < later
        decreases |rest|
      {
        HasLeast(rest);
        var day :| day in rest && forall other :: other in rest ==> day <= other;
        assert forall other :: other in days ==> other < day;
        assert forall i :: 0 <= i < |days| ==> days[i] in days;
        days := days + [day];
        rest := rest - {day};
      }
    }

    /** The grouping of the insert-select, one row after the other. */
    static method Grouped(events: Events) returns (totals: Daily)
      ensures totals == GroupBy(events)
    {
      hide GroupBy, Add, GroupOf;
      totals := map[];
      var todo := events.Keys;
      ghost var seen: Events := map[];
      NothingGrouped();
      while todo != {}
        invariant todo <= events.Keys && seen == events - todo
        invariant totals == GroupBy(seen)
        decreases |todo|
      {
        assert (forall k :: k !in todo) ==> todo == {};
        var k :| k in todo;
        var event := events[k];
        var group := GroupOf(event);
        GroupByAdds(seen, k, event);
        seen := seen[k := event];
        totals := totals[group := Add(RowOf(totals, group), event)];
        todo := todo - {k};
        assert seen == events - todo;
      }
      assert seen == events;
    }

    /** The delete and the insert-select of recompute, for a non-empty list of days. */
    method Recompute(days: seq<int>)
      requires days != [] && Increasing(days)
      modifies this`daily
      ensures daily == Recomputed(events, old(daily), days)
    {
      var kept := map group | group in daily && group.day !in days :: daily[group];
      var totals := Grouped(Selected(events, days));
      daily := kept + totals;
    }

    /** Delete one batch of rows that have left the window, whichever the database picks. */
    method DeleteExpired(now: int) returns (ghost doomed: set<Key>, deleted: nat)
      modifies this`events
      ensures Doomed(old(events), now, doomed)
      ensures events == old(events) - doomed && deleted == |doomed|
    {
      var rest, chosen := Expired(events, now), {};
      while rest != {} && |chosen| < RETENTION_BATCH
        invariant chosen !! rest && chosen + rest == Expired(events, now)
        invariant |chosen| <= RETENTION_BATCH
        decreases |rest|
      {
        assert (forall k :: k !in rest) ==> rest == {};
        var k :| k in rest;
        chosen, rest := chosen + {k}, rest - {k};
      }
      assert |chosen + rest| == |chosen| + |rest|;
      assert rest == {} ==> chosen == Expired(events, now);
      events := events - chosen;
      doomed, deleted := chosen, |chosen|;
    }

    /** What run does after it has listed the days. */
    method FinishRun(now: int, days: seq<int>) returns (ghost doomed: set<Key>, deleted: nat)
      requires Increasing(days)
      modifies this
      ensures daily == Recomputed(old(events), old(daily), days)
      ensures Doomed(old(events), now, doomed) && events == old(events) - doomed && deleted == |doomed|
      ensures watermark == Some(now)
    {
      if |days| > 0 {
        Recompute(days);
      }
      doomed, deleted := DeleteExpired(now);
      watermark := Some(now);
    }
  }

  lemma {:induction false} HasLeast(s: set<int>)
    requires s != {}
    ensures exists x :: x in s && forall y :: y in s ==> x <= y
  {
    assert (forall x :: x !in s) ==> s == {};
    var x :| x in s;
    var rest := s - {x};
    assert forall y :: y in s ==> y == x || y in rest;
    if rest == {} {
      assert forall y :: y in s ==> x <= y;
    } else {
      HasLeast(rest);
      var z :| z in rest && forall y :: y in rest ==> z <= y;
      var least := if x <= z then x else z;
      assert least in s && forall y :: y in s ==> least <= y;
    }
  }
}
