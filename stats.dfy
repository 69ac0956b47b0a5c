/** Statistics over the records of a period (src/services/stats.ts). */
module Stats {
  import opened SessionTypes
  import opened SessionRules
  import Calendar
  import Sessions

  datatype StatsSummary = StatsSummary(sessionsCompleted: nat, focusSeconds: int, breakSeconds: int)

  /** `sessions.filter((s) => !s.interrupted).length`. */
  function CountNotInterrupted(list: seq<Session>): (n: nat)
    ensures n <= |list|
  {
    if list == [] then 0
    else CountNotInterrupted(list[..|list| - 1]) + (if list[|list| - 1].interrupted then 0 else 1)
  }

  /** `summarize`: every uninterrupted record of any kind counts as completed;
      focus and break time add up every record of their kind, interrupted or not. */
  function Summarize(list: seq<Session>): (r: StatsSummary)
    ensures r.sessionsCompleted <= |list|
  {
    StatsSummary(CountNotInterrupted(list), SumDurations(list, Focus), SumDurations(list, Break))
  }

  function Add(a: StatsSummary, b: StatsSummary): StatsSummary {
    StatsSummary(a.sessionsCompleted + b.sessionsCompleted, a.focusSeconds + b.focusSeconds,
                 a.breakSeconds + b.breakSeconds)
  }

  lemma SummarizeEmpty()
    ensures Summarize([]) == StatsSummary(0, 0, 0)
  {
  }

  lemma {:induction false} CountNotInterruptedAppend(a: seq<Session>, b: seq<Session>)
    ensures CountNotInterrupted(a + b) == CountNotInterrupted(a) + CountNotInterrupted(b)
  {
    if b != [] {
      var b' := b[..|b| - 1];
      assert (a + b)[..|a + b| - 1] == a + b';
      CountNotInterruptedAppend(a, b');
    } else {
      assert a + b == a;
    }
  }

  /** `summarize` is a homomorphism: the summary of a concatenation is the
      field-wise sum of the summaries. */
  lemma SummarizeAppend(a: seq<Session>, b: seq<Session>)
    ensures Summarize(a + b) == Add(Summarize(a), Summarize(b))
  {
    CountAppend(a, b);
    TimeAppend(a, b, Focus);
    TimeAppend(a, b, Break);
    AddFields(Summarize(a + b), Summarize(a), Summarize(b));
  }

  lemma CountAppend(a: seq<Session>, b: seq<Session>)
    ensures Summarize(a + b).sessionsCompleted == Summarize(a).sessionsCompleted + Summarize(b).sessionsCompleted
  {
    CountNotInterruptedAppend(a, b);
  }

  lemma TimeAppend(a: seq<Session>, b: seq<Session>, kind: SessionType)
    requires kind == Focus || kind == Break
    ensures kind == Focus ==> Summarize(a + b).focusSeconds == Summarize(a).focusSeconds + Summarize(b).focusSeconds
    ensures kind == Break ==> Summarize(a + b).breakSeconds == Summarize(a).breakSeconds + Summarize(b).breakSeconds
  {
    AggregatesAppend(a, b, kind);
  }

  /** A summary is the sum of two others when each of its fields is. */
  lemma AddFields(x: StatsSummary, y: StatsSummary, z: StatsSummary)
    requires x.sessionsCompleted == y.sessionsCompleted + z.sessionsCompleted
    requires x.focusSeconds == y.focusSeconds + z.focusSeconds
    requires x.breakSeconds == y.breakSeconds + z.breakSeconds
    ensures x == Add(y, z)
  {
  }

  /** A summary of one record. */
  lemma SummarizeOne(s: Session)
    ensures Summarize([s]) == StatsSummary(
      if s.interrupted then 0 else 1,
      if s.kind == Focus then s.duration else 0,
      if s.kind == Break then s.duration else 0)
  {
    assert [s][..|[s]| - 1] == [];
    assert CountNotInterrupted([s]) == (if s.interrupted then 0 else 1);
    assert SumDurations([s], Focus) == (if s.kind == Focus then s.duration else 0);
    assert SumDurations([s], Break) == (if s.kind == Break then s.duration else 0);
  }

  /** Check-in and cool-off records add to neither time total, but an
      uninterrupted one counts as a completed session. */
  lemma CheckinAndCooloffAddNoTime(list: seq<Session>, s: Session)
    requires s.kind == Checkin || s.kind == Cooloff
    ensures Summarize(list + [s]).focusSeconds == Summarize(list).focusSeconds
    ensures Summarize(list + [s]).breakSeconds == Summarize(list).breakSeconds
    ensures Summarize(list + [s]).sessionsCompleted ==
      Summarize(list).sessionsCompleted + (if s.interrupted then 0 else 1)
  {
    SummarizeAppend(list, [s]);
    SummarizeOne(s);
  }

  /** Flipping `interrupted` on one record moves the completed count by one
      and leaves both time totals alone. */
  lemma FlipInterrupted(list: seq<Session>, i: nat)
    requires i < |list|
    ensures var flipped := list[i := list[i].(interrupted := !list[i].interrupted)];
      Summarize(flipped).focusSeconds == Summarize(list).focusSeconds &&
      Summarize(flipped).breakSeconds == Summarize(list).breakSeconds &&
      Summarize(flipped).sessionsCompleted ==
        if list[i].interrupted then Summarize(list).sessionsCompleted + 1
        else Summarize(list).sessionsCompleted - 1
  {
    var s := list[i];
    var t := s.(interrupted := !s.interrupted);
    var flipped := list[i := t];
    assert list == list[..i] + [s] + list[i + 1..];
    assert flipped == list[..i] + [t] + list[i + 1..];
    SummarizeAppend(list[..i] + [s], list[i + 1..]);
    SummarizeAppend(list[..i], [s]);
    SummarizeAppend(list[..i] + [t], list[i + 1..]);
    SummarizeAppend(list[..i], [t]);
    SummarizeOne(s);
    SummarizeOne(t);
  }

  /** `getTodayStats`: the summary of today's range query. */
  function GetTodayStats(store: Sessions.SessionStore): (r: StatsSummary)
    reads store
    requires store.Valid()
    ensures var today := Calendar.TodayRange(store.now);
      r == Summarize(store.QuerySessionsInRange(today.start, today.end)) &&
      r.sessionsCompleted <= |store.QuerySessionsInRange(today.start, today.end)|
  {
    Summarize(store.TodaySessions())
  }

  /** `getThisWeekStats`: the summary of this week's range query. */
  function GetThisWeekStats(store: Sessions.SessionStore): (r: StatsSummary)
    reads store
    requires store.Valid()
    ensures var week := Calendar.ThisWeekRange(store.now);
      r == Summarize(store.QuerySessionsInRange(week.start, week.end)) &&
      r.sessionsCompleted <= |store.QuerySessionsInRange(week.start, week.end)|
  {
    var week := Calendar.ThisWeekRange(store.now);
    Summarize(store.QuerySessionsInRange(week.start, week.end))
  }

  /** A range inside another one never shows more: fewer or as many
      completed sessions and, durations being non-negative, no more time. */
  lemma {:induction false} SummaryWithinRange(list: seq<Session>, s1: int, e1: int, s2: int, e2: int)
    requires s2 <= s1 && e1 <= e2
    ensures var inner, outer := Summarize(FilterInRange(list, s1, e1)), Summarize(FilterInRange(list, s2, e2));
      inner.sessionsCompleted <= outer.sessionsCompleted &&
      (NonNegativeDurations(list) ==>
        inner.focusSeconds <= outer.focusSeconds && inner.breakSeconds <= outer.breakSeconds)
  {
    if list != [] {
      var init, last := list[..|list| - 1], list[|list| - 1];
      assert list == init + [last];
      SummaryWithinRange(init, s1, e1, s2, e2);
      FilterInRangeSnoc(init, last, s1, e1);
      FilterInRangeSnoc(init, last, s2, e2);
      var i1, i2 := FilterInRange(init, s1, e1), FilterInRange(init, s2, e2);
      if InRange(last, s1, e1) {
        SummarizeAppend(i1, [last]);
        SummarizeAppend(i2, [last]);
      } else if InRange(last, s2, e2) {
        assert FilterInRange(list, s1, e1) == i1;
        SummarizeAppend(i2, [last]);
      } else {
        assert FilterInRange(list, s1, e1) == i1;
        assert FilterInRange(list, s2, e2) == i2;
      }
      SummarizeOne(last);
    }
  }

  /** This week's statistics include today's. */
  lemma TodayWithinWeekStats(store: Sessions.SessionStore)
    requires store.Valid()
    ensures GetTodayStats(store).sessionsCompleted <= GetThisWeekStats(store).sessionsCompleted
    ensures NonNegativeDurations(store.All()) ==>
      GetTodayStats(store).focusSeconds <= GetThisWeekStats(store).focusSeconds &&
      GetTodayStats(store).breakSeconds <= GetThisWeekStats(store).breakSeconds
  {
    var today, week := Calendar.TodayRange(store.now), Calendar.ThisWeekRange(store.now);
    Calendar.TodayWithinThisWeek(store.now);
    SummaryWithinRange(store.All(), today.start, today.end, week.start, week.end);
  }

  /** One entry of `getLast4WeeksStats`; the week's range stands in for its label. */
  datatype WeekStats = WeekStats(range: Calendar.Range, summary: StatsSummary)

  /** `getLast4WeeksStats`: four entries in the order of the ranges, each the
      summary of its own week's query. */
  function GetLast4WeeksStats(store: Sessions.SessionStore): (r: seq<WeekStats>)
    reads store
    requires store.Valid()
    ensures |r| == 4
    ensures forall i :: 0 <= i < 4 ==>
      r[i].range == Calendar.Last4WeeksRanges(store.now)[i] &&
      r[i].summary == Summarize(store.QuerySessionsInRange(r[i].range.start, r[i].range.end))
  {
    var ranges := Calendar.Last4WeeksRanges(store.now);
    [WeekEntry(store, ranges[0]), WeekEntry(store, ranges[1]),
     WeekEntry(store, ranges[2]), WeekEntry(store, ranges[3])]
  }

  function WeekEntry(store: Sessions.SessionStore, range: Calendar.Range): WeekStats
    reads store
    requires store.Valid()
  {
    WeekStats(range, Summarize(store.QuerySessionsInRange(range.start, range.end)))
  }

  /** A manual focus entry adds its duration to today's focus time. */
  lemma ManualFocusShowsToday(before: seq<Session>, s: Session)
    requires s.kind == Focus && !s.interrupted
    ensures Summarize(before + [s]).focusSeconds == Summarize(before).focusSeconds + s.duration
    ensures Summarize(before + [s]).sessionsCompleted == Summarize(before).sessionsCompleted + 1
  {
    SummarizeAppend(before, [s]);
    SummarizeOne(s);
  }
}
