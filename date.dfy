/** Day and week ranges for the statistics (src/utils/date.ts).

    Instants are integer milliseconds of local wall-clock time; every day is
    exactly 24 hours long and day 0 of the count (1970-01-01) is a Thursday.
    Ranges are inclusive at both ends, as date-fns' `endOfDay`/`endOfWeek`
    return the last millisecond of the period. */
module Calendar {

  const DAY_MS: int := 86_400_000
  const WEEK_MS: int := 7 * DAY_MS

  /** Weekday of day 0, counted from Monday = 0 (`weekStartsOn: 1`). */
  const EPOCH_WEEKDAY: int := 3

  datatype Range = Range(start: int, end: int)

  predicate Contains(r: Range, t: int) { r.start <= t <= r.end }

  /** Monday-based weekday of the day holding `t`: 0 is Monday, 6 is Sunday. */
  function Weekday(t: int): (w: int)
    ensures 0 <= w < 7
  {
    (t / DAY_MS + EPOCH_WEEKDAY) % 7
  }

  function StartOfDay(t: int): (r: int)
    ensures r % DAY_MS == 0 && r <= t < r + DAY_MS
  {
    t - t % DAY_MS
  }

  function EndOfDay(t: int): int { StartOfDay(t) + DAY_MS - 1 }

  /** Midnight of the Monday that begins the week holding `t`. */
  function StartOfWeek(t: int): (r: int)
    ensures r % DAY_MS == 0 && Weekday(r) == 0
    ensures r <= t < r + WEEK_MS
  {
    var d := t / DAY_MS;
    var r := StartOfDay(t) - Weekday(t) * DAY_MS;
    assert StartOfDay(t) == d * DAY_MS;
    assert r == (d - Weekday(t)) * DAY_MS;
    assert r / DAY_MS == d - Weekday(t);
    assert (d - Weekday(t) + EPOCH_WEEKDAY) % 7 == 0;
    r
  }

  function EndOfWeek(t: int): int { StartOfWeek(t) + WEEK_MS - 1 }

  /** A Monday midnight is the start of its own week. */
  lemma StartOfWeekOfMonday(t: int)
    requires t % DAY_MS == 0 && Weekday(t) == 0
    ensures StartOfWeek(t) == t
  {
  }

  /** Shifting a Monday midnight by whole weeks gives a Monday midnight. */
  lemma ShiftByWeeks(t: int, k: int)
    requires t % DAY_MS == 0 && Weekday(t) == 0
    ensures (t - k * WEEK_MS) % DAY_MS == 0 && Weekday(t - k * WEEK_MS) == 0
  {
    var d := t / DAY_MS;
    assert t == d * DAY_MS;
    assert t - k * WEEK_MS == (d - 7 * k) * DAY_MS;
    assert (t - k * WEEK_MS) / DAY_MS == d - 7 * k;
    assert (d - 7 * k + EPOCH_WEEKDAY) % 7 == (d + EPOCH_WEEKDAY) % 7;
  }

  /** `getTodayRange`: the calendar day holding `now`. */
  function TodayRange(now: int): (r: Range)
    ensures Contains(r, now)
    ensures r.start == StartOfDay(now) && r.end == r.start + DAY_MS - 1
  {
    Range(StartOfDay(now), EndOfDay(now))
  }

  /** `getThisWeekRange`: the Monday-to-Sunday week holding `now`. */
  function ThisWeekRange(now: int): (r: Range)
    ensures Contains(r, now)
    ensures r.start % DAY_MS == 0 && Weekday(r.start) == 0
    ensures r.end - r.start + 1 == WEEK_MS
  {
    Range(StartOfWeek(now), EndOfWeek(now))
  }

  /** Today lies inside this week. */
  lemma TodayWithinThisWeek(now: int)
    ensures ThisWeekRange(now).start <= TodayRange(now).start
    ensures TodayRange(now).end <= ThisWeekRange(now).end
  {
    assert StartOfWeek(now) == StartOfDay(now) - Weekday(now) * DAY_MS;
  }

  /** Week `i` of `getLast4WeeksRanges`: begins i+1 weeks before this week's
      Monday and ends where that week ends. */
  function PriorWeek(now: int, i: nat): (r: Range)
    ensures r.start == StartOfWeek(now) - (i + 1) * WEEK_MS
    ensures r.start % DAY_MS == 0 && Weekday(r.start) == 0
    ensures r.end == r.start + WEEK_MS - 1
  {
    var weekStart := StartOfWeek(now) - (i + 1) * WEEK_MS;
    ShiftByWeeks(StartOfWeek(now), i + 1);
    StartOfWeekOfMonday(weekStart);
    Range(weekStart, EndOfWeek(weekStart))
  }

  /** `getLast4WeeksRanges` without the labels: four whole Monday-based weeks,
      most recent first, each ending one millisecond before the next begins,
      and all before this week. */
  function Last4WeeksRanges(now: int): (r: seq<Range>)
    ensures |r| == 4
    ensures forall i :: 0 <= i < 4 ==> r[i] == PriorWeek(now, i)
    ensures forall i :: 0 <= i < 3 ==> r[i + 1].end + 1 == r[i].start
    ensures forall i :: 0 <= i < 4 ==> r[i].end < ThisWeekRange(now).start
  {
    seq(4, i requires 0 <= i => PriorWeek(now, i))
  }

  /** The four ranges are pairwise disjoint: no instant lies in two of them. */
  lemma Last4WeeksDisjoint(now: int, i: nat, j: nat, t: int)
    requires i < j < 4
    requires Contains(Last4WeeksRanges(now)[i], t)
    ensures !Contains(Last4WeeksRanges(now)[j], t)
  {
    var r := Last4WeeksRanges(now);
    assert r[j].end < r[i].start by {
      assert r[j].start == r[i].start - (j - i) * WEEK_MS;
    }
  }
}
