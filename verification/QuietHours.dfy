/** Screen-off hours in Seoul time, and the sampling that looks for them in the recent past. */
module QuietHours {
  import opened SeoulTime

  const ONLINE_WITHIN_MS: int := 90_000
  const SAMPLE_MS: int := 30_000

  /** Minutes of the day; end is exclusive, and an end not after the start wraps past midnight. */
  datatype TimeRange = TimeRange(start: int, end: int)

  predicate Covers(range: TimeRange, minute: int) {
    if range.start < range.end then range.start <= minute < range.end
    else minute >= range.start || minute < range.end
  }

  predicate IsQuietAt(ranges: seq<TimeRange>, t: int) {
    exists i :: 0 <= i < |ranges| && Covers(ranges[i], SeoulMinuteOfDay(t))
  }

  ghost predicate QuietWithin(ranges: seq<TimeRange>, from: int, to: int) {
    exists t :: from <= t <= to && IsQuietAt(ranges, t)
  }

  /** Whether one of the samples at 0, 30, 60 and 90 seconds before now is quiet. */
  predicate SampledQuiet(ranges: seq<TimeRange>, now: int) {
    || IsQuietAt(ranges, now)
    || IsQuietAt(ranges, now - SAMPLE_MS)
    || IsQuietAt(ranges, now - 2 * SAMPLE_MS)
    || IsQuietAt(ranges, now - 3 * SAMPLE_MS)
  }

  /** A range as the source promises it: from its start up to but not including its end, which is
      on the next day when it is not after the start. */
  predicate LiesIn(range: TimeRange, day: int, t: int) {
    var end := if range.start < range.end then range.end else range.end + 24 * 60;
    StartOfSeoulDay(day) + range.start * 60_000 <= t < StartOfSeoulDay(day) + end * 60_000
  }

  /** An instant is quiet exactly when it lies in a range that began on its own Seoul day or on the
      day before. */
  lemma QuietExactly(ranges: seq<TimeRange>, t: int)
    requires forall i :: 0 <= i < |ranges| ==> 0 <= ranges[i].start < 1440 && 0 <= ranges[i].end < 1440
    ensures IsQuietAt(ranges, t)
       <==> exists i :: 0 <= i < |ranges|
              && (LiesIn(ranges[i], SeoulDate(t), t) || LiesIn(ranges[i], SeoulDate(t) - 1, t))
  {
    hide LiesIn, Covers, SeoulMinuteOfDay;
    forall i | 0 <= i < |ranges|
      ensures Covers(ranges[i], SeoulMinuteOfDay(t))
         <==> LiesIn(ranges[i], SeoulDate(t), t) || LiesIn(ranges[i], SeoulDate(t) - 1, t)
    {
      CoversExactly(ranges[i], t);
    }
  }

  lemma CoversExactly(range: TimeRange, t: int)
    requires 0 <= range.start < 1440 && 0 <= range.end < 1440
    ensures Covers(range, SeoulMinuteOfDay(t)) <==> LiesIn(range, SeoulDate(t), t) || LiesIn(range, SeoulDate(t) - 1, t)
  {
    MinuteInDay(t);
    hide SeoulMinuteOfDay, SeoulDate;
  }

  /** The time since the start of the Seoul day, in whole minutes. */
  lemma MinuteInDay(t: int)
    ensures var since := t - StartOfSeoulDay(SeoulDate(t));
            0 <= since < 86_400_000 && SeoulMinuteOfDay(t) * 60_000 <= since < SeoulMinuteOfDay(t) * 60_000 + 60_000
  {
    DaySplit(t);
    var time := TimeWithinDay(Local(t));
    var m, s := time / MINUTE_MS, time % MINUTE_MS;
    assert time == MINUTE_MS * m + s;
    Quotient(time, 3_600_000, m / 60, MINUTE_MS * (m % 60) + s);
  }

  /** Instants half a minute apart show every minute that lies between them. */
  lemma BetweenSamples(s: int, t: int)
    requires s <= t <= s + SAMPLE_MS
    ensures SeoulMinuteOfDay(t) == SeoulMinuteOfDay(s) || SeoulMinuteOfDay(t) == SeoulMinuteOfDay(s + SAMPLE_MS)
  {
    hide SeoulMinuteOfDay;
    MinuteOfDay(s);
    MinuteOfDay(t);
    MinuteOfDay(s + SAMPLE_MS);
    var a, b, c := Local(s) / MINUTE_MS, Local(t) / MINUTE_MS, Local(s + SAMPLE_MS) / MINUTE_MS;
    assert a <= b <= c <= a + 1;
  }

  /** The four samples are exact: they see a quiet instant if and only if the last 90 seconds,
      both ends included, hold one. */
  lemma SamplesAreExact(ranges: seq<TimeRange>, now: int)
    ensures SampledQuiet(ranges, now) <==> QuietWithin(ranges, now - ONLINE_WITHIN_MS, now)
  {
    hide SeoulMinuteOfDay;
    if QuietWithin(ranges, now - ONLINE_WITHIN_MS, now) {
      var t :| now - ONLINE_WITHIN_MS <= t <= now && IsQuietAt(ranges, t);
      var k := if t >= now - SAMPLE_MS then 1 else if t >= now - 2 * SAMPLE_MS then 2 else 3;
      BetweenSamples(now - k * SAMPLE_MS, t);
      assert now - k * SAMPLE_MS + SAMPLE_MS == now - (k - 1) * SAMPLE_MS;
    }
  }

  /** The sampling loop. */
  method RecentlySleeping(ranges: seq<TimeRange>, now: int) returns (sleeping: bool)
    ensures sleeping == SampledQuiet(ranges, now)
    ensures sleeping <==> QuietWithin(ranges, now - ONLINE_WITHIN_MS, now)
  {
    SamplesAreExact(ranges, now);
    hide SeoulMinuteOfDay;
    var offset := 0;
    while offset <= ONLINE_WITHIN_MS
      invariant 0 <= offset <= ONLINE_WITHIN_MS + SAMPLE_MS && offset % SAMPLE_MS == 0
      invariant forall k :: 0 <= k * SAMPLE_MS < offset ==> !IsQuietAt(ranges, now - k * SAMPLE_MS)
      decreases ONLINE_WITHIN_MS - offset
    {
      assert offset == offset / SAMPLE_MS * SAMPLE_MS;
      if IsQuietAt(ranges, now - offset) {
        return true;
      }
      offset := offset + SAMPLE_MS;
    }
    assert !IsQuietAt(ranges, now - 0 * SAMPLE_MS) && !IsQuietAt(ranges, now - 1 * SAMPLE_MS);
    return false;
  }
}
