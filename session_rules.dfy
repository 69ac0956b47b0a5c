/** The filter and arithmetic rules of the session store
    (src/services/sessions.ts): the range query, the daily check-in quota
    and the two recovery classifiers, over a list of fetched records. */
module SessionRules {
  import opened Wrappers
  import opened SessionTypes
  import opened Constants
  import opened Arith

  /** A lock younger than this many milliseconds blocks a check-in. */
  const LOCK_TTL_MS: int := 5000

  /** A finished session is reported as exceeded for two hours. */
  const EXCEEDED_WINDOW_MS: int := 2 * 3600 * 1000

  /** The bonus interval used when the given one is not positive. */
  const FALLBACK_INTERVAL: int := 30

  // ---------------------------------------------------------------- range query

  /** The conditions of `querySessionsInRange`. */
  predicate InRange(s: Session, start: int, end: int) {
    s.completed && start <= s.createdAt <= end
  }

  /** The records of `list` that the range query returns, in list order. */
  function FilterInRange(list: seq<Session>, start: int, end: int): (r: seq<Session>)
    ensures |r| <= |list|
    ensures forall s :: s in r <==> s in list && InRange(s, start, end)
  {
    if list == [] then []
    else
      var init := list[..|list| - 1];
      var last := list[|list| - 1];
      assert list == init + [last];
      FilterInRange(init, start, end) + (if InRange(last, start, end) then [last] else [])
  }

  lemma FilterInRangeSnoc(list: seq<Session>, s: Session, start: int, end: int)
    ensures FilterInRange(list + [s], start, end) ==
      FilterInRange(list, start, end) + (if InRange(s, start, end) then [s] else [])
  {
    assert (list + [s])[..|list|] == list;
  }

  // ---------------------------------------------------------------- aggregates

  /** `list.filter((s) => s.type === kind).reduce((sum, s) => sum + s.duration, 0)`. */
  function SumDurations(list: seq<Session>, kind: SessionType): int
  {
    if list == [] then 0
    else
      SumDurations(list[..|list| - 1], kind) +
      (if list[|list| - 1].kind == kind then list[|list| - 1].duration else 0)
  }

  /** `list.filter((s) => s.type === kind).length`. */
  function CountKind(list: seq<Session>, kind: SessionType): (n: nat)
    ensures n <= |list|
  {
    if list == [] then 0
    else CountKind(list[..|list| - 1], kind) + (if list[|list| - 1].kind == kind then 1 else 0)
  }

  predicate NonNegativeDurations(list: seq<Session>) {
    forall i :: 0 <= i < |list| ==> list[i].duration >= 0
  }

  lemma {:induction false} SumDurationsNonNegative(list: seq<Session>, kind: SessionType)
    ensures NonNegativeDurations(list) ==> SumDurations(list, kind) >= 0
  {
    if list != [] && NonNegativeDurations(list) {
      SumDurationsNonNegative(list[..|list| - 1], kind);
    }
  }

  /** Both aggregates distribute over concatenation. */
  lemma {:induction false} AggregatesAppend(a: seq<Session>, b: seq<Session>, kind: SessionType)
    ensures SumDurations(a + b, kind) == SumDurations(a, kind) + SumDurations(b, kind)
    ensures CountKind(a + b, kind) == CountKind(a, kind) + CountKind(b, kind)
  {
    if b != [] {
      var b' := b[..|b| - 1];
      assert (a + b)[..|a + b| - 1] == a + b';
      AggregatesAppend(a, b', kind);
    } else {
      assert a + b == a;
    }
  }

  // ---------------------------------------------------------------- check-in quota

  /** `canCheckIn`'s bonus interval: a missing or zero argument is replaced
      by the stored setting, and a value that is still not positive by 30. */
  function EffectiveInterval(arg: Option<int>, stored: int): (r: int)
    ensures r > 0
    ensures arg.Some? && arg.value > 0 ==> r == arg.value
    ensures arg.Some? && arg.value < 0 ==> r == FALLBACK_INTERVAL
    ensures (arg.None? || arg.value == 0) ==> r == (if stored > 0 then stored else FALLBACK_INTERVAL)
  {
    var b := if arg.None? || arg.value == 0 then stored else arg.value;
    if b <= 0 then FALLBACK_INTERVAL else b
  }

  /** `CHECKIN_BASE_LIMIT + Math.floor(focusSeconds / (interval * 60))`: one
      extra check-in per whole interval of focus time. */
  function DailyLimit(focusSeconds: int, interval: int): (limit: int)
    requires interval > 0
    ensures focusSeconds >= 0 ==> limit >= CHECKIN_BASE_LIMIT
    ensures (limit - CHECKIN_BASE_LIMIT) * (interval * 60) <= focusSeconds
    ensures focusSeconds < (limit - CHECKIN_BASE_LIMIT + 1) * (interval * 60)
  {
    FloorDivBounds(focusSeconds, interval * 60);
    CHECKIN_BASE_LIMIT + focusSeconds / (interval * 60)
  }

  /** JavaScript's `a % b` for a positive divisor: the remainder takes the
      sign of the dividend. */
  function JsRem(a: int, b: int): (r: int)
    requires b > 0
    ensures a >= 0 ==> r == a % b
  {
    if a >= 0 then a % b else -((-a) % b)
  }

  /** `interval - (Math.floor(focusSeconds / 60) % interval)`. */
  function MinutesToNextBonus(focusSeconds: int, interval: int): (r: int)
    requires interval > 0
    ensures focusSeconds >= 0 ==> 1 <= r <= interval
    ensures focusSeconds >= 0 ==> (r == interval <==> (focusSeconds / 60) % interval == 0)
    ensures focusSeconds >= 0 ==> (focusSeconds / 60 + r) % interval == 0
  {
    var minutes := focusSeconds / 60;
    RoundUpToMultiple(minutes, interval);
    interval - JsRem(minutes, interval)
  }

  /** Earning the minutes `MinutesToNextBonus` names raises the limit by one. */
  lemma NextBonusRaisesLimit(focusSeconds: int, interval: int)
    requires focusSeconds >= 0 && interval > 0
    ensures DailyLimit((focusSeconds / 60 + MinutesToNextBonus(focusSeconds, interval)) * 60, interval)
      == DailyLimit(focusSeconds, interval) + 1
  {
    var minutes := focusSeconds / 60;
    var r := MinutesToNextBonus(focusSeconds, interval);
    var k := minutes / interval;
    assert minutes == interval * k + minutes % interval;
    assert minutes + r == interval * (k + 1) + 0;
    DivModUnique(minutes + r, interval, k + 1, 0);
    DivDiv(focusSeconds, 60, interval);
    DivDiv((minutes + r) * 60, 60, interval);
    DivModUnique((minutes + r) * 60, 60, minutes + r, 0);
    assert 60 * interval == interval * 60;
  }

  /** The result of `canCheckIn`. */
  datatype CheckInStatus = CheckInStatus(allowed: bool, used: nat, limit: int, minutesToNextBonus: int)

  /** `canCheckIn` over today's records and an effective interval. */
  function CheckInStatusOf(today: seq<Session>, interval: int): (st: CheckInStatus)
    requires interval > 0
    ensures st.used == CountKind(today, Checkin)
    ensures st.limit == DailyLimit(SumDurations(today, Focus), interval)
    ensures st.allowed <==> st.used < st.limit
    ensures st.minutesToNextBonus == MinutesToNextBonus(SumDurations(today, Focus), interval)
    ensures NonNegativeDurations(today) ==>
      st.limit >= CHECKIN_BASE_LIMIT && 1 <= st.minutesToNextBonus <= interval
  {
    var focus := SumDurations(today, Focus);
    SumDurationsNonNegative(today, Focus);
    var used := CountKind(today, Checkin);
    var limit := DailyLimit(focus, interval);
    CheckInStatus(used < limit, used, limit, MinutesToNextBonus(focus, interval))
  }

  // ---------------------------------------------------------------- incomplete sessions

  /** The incomplete record with the latest start; on equal starts the one
      listed last. */
  function LatestIncomplete(list: seq<Session>): (r: Option<Session>)
    ensures r.None? <==> forall s :: s in list ==> s.completed
    ensures r.Some? ==> r.value in list && !r.value.completed
    ensures r.Some? ==> forall s :: s in list && !s.completed ==> s.startTime <= r.value.startTime
  {
    if list == [] then None
    else
      var init := list[..|list| - 1];
      var last := list[|list| - 1];
      assert list == init + [last];
      var best := LatestIncomplete(init);
      if !last.completed && (best.None? || best.value.startTime <= last.startTime) then Some(last)
      else best
  }

  /** `Math.ceil(a / b)` for a positive divisor. */
  function CeilDiv(a: int, b: int): (r: int)
    requires b > 0
    ensures (r - 1) * b < a <= r * b
  {
    -((-a) / b)
  }

  /** Elapsed time has reached the planned duration: `elapsed >= duration`. */
  predicate Finished(s: Session, now: int) {
    now - s.startTime >= s.duration * 1000
  }

  /** `Math.ceil(duration - elapsed)`, elapsed being `(now - startTime) / 1000`. */
  function RemainingSeconds(duration: int, startTime: int, now: int): (r: int)
    ensures (r - 1) * 1000 < duration * 1000 - (now - startTime) <= r * 1000
  {
    CeilDiv(duration * 1000 - (now - startTime), 1000)
  }

  datatype IncompleteStatus =
    | IncompleteNone
    | IncompleteCompleted(session: Session)
    | IncompleteResume(remaining: int, session: Session)

  /** `checkIncompleteSession`'s answer for the latest incomplete record: a
      finished one is reported completed (the copy returned carries
      `completed = true` and still no `completedAt`), an unfinished one is
      resumed with the seconds left rounded up (`Math.ceil(duration - elapsed)`),
      at least one and, unless the clock is behind its start, at most its
      duration. */
  function ClassifyIncomplete(latest: Option<Session>, now: int): (st: IncompleteStatus)
    ensures latest.None? <==> st.IncompleteNone?
    ensures latest.Some? && Finished(latest.value, now) ==>
      st == IncompleteCompleted(latest.value.(completed := true))
    ensures latest.Some? && !Finished(latest.value, now) ==>
      st.IncompleteResume? && st.session == latest.value && st.remaining >= 1 &&
      (st.remaining - 1) * 1000 < latest.value.duration * 1000 - (now - latest.value.startTime)
        <= st.remaining * 1000 &&
      (now >= latest.value.startTime ==> st.remaining <= latest.value.duration)
  {
    match latest
    case None => IncompleteNone
    case Some(s) =>
      if Finished(s, now) then IncompleteCompleted(s.(completed := true))
      else IncompleteResume(RemainingSeconds(s.duration, s.startTime, now), s)
  }

  // ---------------------------------------------------------------- exceeded sessions

  /** The conditions of `checkRecentExceededSession`'s query. */
  predicate ExceededEligible(s: Session, now: int) {
    s.completed && !s.interrupted && !s.dismissed && s.kind != Checkin &&
    s.completedAt.Some? && s.completedAt.value >= now - EXCEEDED_WINDOW_MS
  }

  /** The eligible record completed last; on equal instants the one listed last. */
  function LatestExceeded(list: seq<Session>, now: int): (r: Option<Session>)
    ensures r.None? <==> forall s :: s in list ==> !ExceededEligible(s, now)
    ensures r.Some? ==> r.value in list && ExceededEligible(r.value, now)
    ensures r.Some? ==> forall s :: s in list && ExceededEligible(s, now) ==>
      s.completedAt.value <= r.value.completedAt.value
  {
    if list == [] then None
    else
      var init := list[..|list| - 1];
      var last := list[|list| - 1];
      assert list == init + [last];
      var best := LatestExceeded(init, now);
      if ExceededEligible(last, now) &&
         (best.None? || best.value.completedAt.value <= last.completedAt.value)
      then Some(last)
      else best
  }

  /** `Math.max(0, Math.floor((now - completedAt) / 1000))`: whole seconds
      since completion, never negative. */
  function ExceededSeconds(completedAt: int, now: int): (r: int)
    ensures r >= 0
    ensures now >= completedAt ==> r * 1000 <= now - completedAt < (r + 1) * 1000
    ensures now < completedAt + 1000 ==> r == 0
  {
    var q := (now - completedAt) / 1000;
    if q < 0 then 0 else q
  }

  datatype ExceededStatus =
    | ExceededNone
    | Exceeded(session: Session, exceededSeconds: int)

  /** `checkRecentExceededSession`'s answer for the record its query found. */
  function ClassifyExceeded(latest: Option<Session>, now: int): (st: ExceededStatus)
    ensures latest.None? || latest.value.completedAt.None? <==> st.ExceededNone?
    ensures st.Exceeded? ==>
      st.session == latest.value && st.exceededSeconds >= 0 &&
      st.exceededSeconds == ExceededSeconds(latest.value.completedAt.value, now)
  {
    match latest
    case None => ExceededNone
    case Some(s) =>
      match s.completedAt
      case None => ExceededNone
      case Some(t) => Exceeded(s, ExceededSeconds(t, now))
  }

  /** Once its record is dismissed, a session that was the only exceeded
      candidate is no longer reported. */
  lemma {:induction false} DismissedNotReported(list: seq<Session>, i: nat, now: int)
    requires i < |list|
    requires forall j :: 0 <= j < |list| && j != i ==> !ExceededEligible(list[j], now)
    ensures ClassifyExceeded(LatestExceeded(list[i := list[i].(dismissed := true)], now), now) == ExceededNone
  {
    var l' := list[i := list[i].(dismissed := true)];
    forall s | s in l' ensures !ExceededEligible(s, now) {
      var j :| 0 <= j < |l'| && l'[j] == s;
    }
  }
}
