/** The per-user session store and its check-in engine
    (src/services/sessions.ts).

    The user's `sessions` collection is a map from document id to record.
    Document ids are drawn from a counter (`nextId`) written in decimal, which
    also gives the records a creation order: every query filters the records
    in that order. One clock, `now`, stands for both the client's and the
    server's time. */
module Sessions {
  import opened Wrappers
  import opened SessionTypes
  import opened Decimal
  import opened SessionRules
  import Calendar
  import Settings

  /** The per-day check-in lock document. */
  datatype CheckinLock = CheckinLock(timestamp: int, userId: string)

  /** Every key is the decimal form of a number below `n` and names its record. */
  ghost predicate WellKeyed(m: map<string, Session>, n: nat) {
    forall id | id in m :: Canonical(id) && Value(id) < n && m[id].id == id
  }

  /** The records whose ids are `FromNat(0)`, ..., `FromNat(n - 1)`, in that order. */
  function Listing(m: map<string, Session>, n: nat): seq<Session>
  {
    if n == 0 then []
    else Listing(m, n - 1) + (if FromNat(n - 1) in m then [m[FromNat(n - 1)]] else [])
  }

  lemma {:induction false} ListingHas(m: map<string, Session>, n: nat, j: nat)
    requires j < n && FromNat(j) in m
    ensures m[FromNat(j)] in Listing(m, n)
  {
    if j < n - 1 {
      ListingHas(m, n - 1, j);
    }
  }

  lemma {:induction false} ListingFromMap(m: map<string, Session>, n: nat, s: Session)
    requires s in Listing(m, n)
    ensures s in m.Values
  {
    if s !in Listing(m, n - 1) {
      assert s == m[FromNat(n - 1)];
    } else {
      ListingFromMap(m, n - 1, s);
    }
  }

  /** The listing holds exactly the records of the map. */
  lemma ListingMembers(m: map<string, Session>, n: nat)
    requires WellKeyed(m, n)
    ensures forall s :: s in Listing(m, n) <==> s in m.Values
  {
    forall s ensures s in Listing(m, n) <==> s in m.Values {
      if s in Listing(m, n) {
        ListingFromMap(m, n, s);
      }
      if s in m.Values {
        var id :| id in m && m[id] == s;
        FromNatOfValue(id);
        ListingHas(m, n, Value(id));
      }
    }
  }

  /** Writing a key outside the listed ids leaves the listing as it was. */
  lemma {:induction false} ListingFrame(m: map<string, Session>, n: nat, k: string, s: Session)
    requires forall j :: 0 <= j < n ==> FromNat(j) != k
    ensures Listing(m[k := s], n) == Listing(m, n)
  {
    if n > 0 {
      ListingFrame(m, n - 1, k, s);
    }
  }

  /** The decimal form of the counter is not yet a key. */
  lemma NextIdFresh(m: map<string, Session>, n: nat)
    requires WellKeyed(m, n)
    ensures FromNat(n) !in m
  {
    ValueOfFromNat(n);
  }

  /** Inserting under the next id appends to the listing and keeps the keys
      well formed. */
  lemma ListingInsert(m: map<string, Session>, n: nat, s: Session)
    requires WellKeyed(m, n)
    ensures FromNat(n) !in m
    ensures Listing(m[FromNat(n) := s], n + 1) == Listing(m, n) + [s]
    ensures s.id == FromNat(n) ==> WellKeyed(m[FromNat(n) := s], n + 1)
  {
    ValueOfFromNat(n);
    FromNatCanonical(n);
    forall j | 0 <= j < n ensures FromNat(j) != FromNat(n) {
      ValueOfFromNat(j);
    }
    ListingFrame(m, n, FromNat(n), s);
  }

  /** Inserting a record that falls in a range under the next id appends it
      to that range's query. */
  lemma InsertInRange(m: map<string, Session>, n: nat, s: Session, start: int, end: int)
    requires WellKeyed(m, n) && s.id == FromNat(n) && InRange(s, start, end)
    ensures WellKeyed(m[FromNat(n) := s], n + 1)
    ensures FilterInRange(Listing(m[FromNat(n) := s], n + 1), start, end) ==
      FilterInRange(Listing(m, n), start, end) + [s]
  {
    ListingInsert(m, n, s);
    FilterInRangeSnoc(Listing(m, n), s, start, end);
  }

  /** A record the store writes on its own: completed at `now`, created now. */
  function CompletedRecord(id: string, now: int, duration: int, kind: SessionType, dismissed: bool): Session
  {
    Session(id, now, duration, kind, true, false, dismissed, Some(now), now)
  }

  class SessionStore {
    const userId: string
    const settings: Settings.SettingsStore
    var sessions: map<string, Session>
    var nextId: nat
    var lock: Option<CheckinLock>
    var now: int

    ghost predicate Valid()
      reads this
    {
      WellKeyed(sessions, nextId)
    }

    constructor (userId: string, settings: Settings.SettingsStore, now: int)
      ensures Valid()
      ensures this.userId == userId && this.settings == settings && this.now == now
      ensures sessions == map[] && nextId == 0 && lock == None
    {
      this.userId := userId;
      this.settings := settings;
      this.now := now;
      sessions := map[];
      nextId := 0;
      lock := None;
    }

    /** The clock moves on; nothing else changes. */
    method SetClock(t: int)
      modifies this`now
      ensures now == t
    {
      now := t;
    }

    /** All records in creation order. */
    function All(): seq<Session>
      reads this
    {
      Listing(sessions, nextId)
    }

    /** The id the next inserted document receives. */
    function NextFreeId(): (id: string)
      reads this
      requires Valid()
      ensures id !in sessions
    {
      NextIdFresh(sessions, nextId);
      FromNat(nextId)
    }

    /** `querySessionsInRange`: exactly the completed records created within
        `[start, end]`; a running session never appears. */
    function QuerySessionsInRange(start: int, end: int): (r: seq<Session>)
      reads this
      requires Valid()
      ensures forall s :: s in r <==> s in sessions.Values && s.completed && start <= s.createdAt <= end
      ensures forall s :: s in r ==> s.completed
    {
      ListingMembers(sessions, nextId);
      FilterInRange(All(), start, end)
    }

    /** The records of the current calendar day: the range query over today. */
    function TodaySessions(): seq<Session>
      reads this
      requires Valid()
    {
      var today := Calendar.TodayRange(now);
      FilterInRange(All(), today.start, today.end)
    }

    /** `canCheckIn(intervalMinutes)`: today's check-ins against
        `3 + floor(focus / (interval * 60))`, where the interval is the
        argument, else the stored setting, else 30. */
    function CanCheckIn(intervalArg: Option<int>): (st: CheckInStatus)
      reads this, settings
      requires Valid()
      ensures st.used == CountKind(TodaySessions(), Checkin)
      ensures st.allowed <==> st.used < st.limit
      ensures st.limit == DailyLimit(SumDurations(TodaySessions(), Focus),
        EffectiveInterval(intervalArg, settings.GetUserSettings().checkinBonusInterval))
      ensures st.minutesToNextBonus == MinutesToNextBonus(SumDurations(TodaySessions(), Focus),
        EffectiveInterval(intervalArg, settings.GetUserSettings().checkinBonusInterval))
      ensures NonNegativeDurations(TodaySessions()) ==> st.limit >= Constants.CHECKIN_BASE_LIMIT
      ensures NonNegativeDurations(TodaySessions()) ==>
        1 <= st.minutesToNextBonus <= EffectiveInterval(intervalArg, settings.GetUserSettings().checkinBonusInterval)
    {
      CheckInStatusOf(TodaySessions(),
        EffectiveInterval(intervalArg, settings.GetUserSettings().checkinBonusInterval))
    }

    /** Today's check-ins, as `createCheckin` counts them. */
    function CheckinsUsed(): nat
      reads this
      requires Valid()
    {
      CountKind(TodaySessions(), Checkin)
    }

    /** Today's limit with the stored interval, as `createCheckin` computes it. */
    function CheckinLimit(): int
      reads this, settings
      requires Valid()
      requires settings.GetUserSettings().checkinBonusInterval > 0
    {
      DailyLimit(SumDurations(TodaySessions(), Focus), settings.GetUserSettings().checkinBonusInterval)
    }

    /** A lock younger than five seconds is held by another check-in. */
    predicate LockBusy()
      reads this
    {
      lock.Some? && now - lock.value.timestamp < LOCK_TTL_MS
    }

    /** `checkIncompleteSession`'s classification of the current records. */
    function IncompleteStatus(): IncompleteStatus
      reads this
    {
      ClassifyIncomplete(LatestIncomplete(All()), now)
    }

    /** `checkRecentExceededSession`: the latest eligible record completed in
        the last two hours, with the whole seconds since its completion. */
    function CheckRecentExceededSession(): (st: ExceededStatus)
      reads this
      requires Valid()
      ensures st.ExceededNone? <==> forall s :: s in sessions.Values ==> !ExceededEligible(s, now)
      ensures st.Exceeded? ==>
        st.session in sessions.Values && ExceededEligible(st.session, now) &&
        st.exceededSeconds == ExceededSeconds(st.session.completedAt.value, now) &&
        forall s :: s in sessions.Values && ExceededEligible(s, now) ==>
          s.completedAt.value <= st.session.completedAt.value
    {
      ListingMembers(sessions, nextId);
      ClassifyExceeded(LatestExceeded(All(), now), now)
    }

    /** `createSession`: a new running record starting now. */
    method CreateSession(duration: int, kind: SessionType) returns (id: string, startTime: int)
      requires Valid()
      modifies this`sessions, this`nextId
      ensures Valid()
      ensures id !in old(sessions) && startTime == now
      ensures sessions == old(sessions)[id := Session(id, now, duration, kind, false, false, false, None, now)]
      ensures All() == old(All()) + [sessions[id]]
    {
      id := NextFreeId();
      startTime := now;
      var s := Session(id, now, duration, kind, false, false, false, None, now);
      ListingInsert(sessions, nextId, s);
      sessions := sessions[id := s];
      nextId := nextId + 1;
    }

    /** `completeSession`: marks the record completed now; a missing document
        is reported, as `updateDoc` rejects it. */
    method CompleteSession(id: string) returns (r: Outcome<Error>)
      requires Valid()
      modifies this`sessions
      ensures Valid()
      ensures id in old(sessions) ==>
        r == Pass && sessions == old(sessions)[id := old(sessions)[id].(completed := true, completedAt := Some(now))]
      ensures id !in old(sessions) ==> r == Fail(NotFound) && sessions == old(sessions)
    {
      if id !in sessions {
        return Fail(NotFound);
      }
      sessions := sessions[id := sessions[id].(completed := true, completedAt := Some(now))];
      r := Pass;
    }

    /** `cancelSession`: deletes the document; deleting a missing one is no error. */
    method CancelSession(id: string)
      requires Valid()
      modifies this`sessions
      ensures Valid()
      ensures sessions == old(sessions) - {id}
    {
      sessions := sessions - {id};
    }

    /** `savePartialSession`: records the elapsed seconds as the duration and
        marks the record completed and interrupted now. */
    method SavePartialSession(id: string, elapsedSeconds: int) returns (r: Outcome<Error>)
      requires Valid()
      modifies this`sessions
      ensures Valid()
      ensures id in old(sessions) ==>
        r == Pass &&
        sessions == old(sessions)[id := old(sessions)[id].(duration := elapsedSeconds, completed := true,
                                                         interrupted := true, completedAt := Some(now))]
      ensures id !in old(sessions) ==> r == Fail(NotFound) && sessions == old(sessions)
    {
      if id !in sessions {
        return Fail(NotFound);
      }
      sessions := sessions[id := sessions[id].(duration := elapsedSeconds, completed := true,
                                               interrupted := true, completedAt := Some(now))];
      r := Pass;
    }

    /** `dismissSession`: sets only `dismissed`, after which the record is no
        longer an exceeded candidate. */
    method DismissSession(id: string) returns (r: Outcome<Error>)
      requires Valid()
      modifies this`sessions
      ensures Valid()
      ensures id in old(sessions) ==>
        r == Pass && sessions == old(sessions)[id := old(sessions)[id].(dismissed := true)] &&
        !ExceededEligible(sessions[id], now)
      ensures id !in old(sessions) ==> r == Fail(NotFound) && sessions == old(sessions)
    {
      if id !in sessions {
        return Fail(NotFound);
      }
      sessions := sessions[id := sessions[id].(dismissed := true)];
      r := Pass;
    }

    /** `addManualTime`: a non-positive duration is rejected with nothing
        written; otherwise a completed, dismissed record of that duration is
        added now, and it is one of today's records. */
    method AddManualTime(kind: SessionType, durationSeconds: int) returns (r: Outcome<Error>)
      requires Valid()
      requires kind == Focus || kind == Break
      modifies this`sessions, this`nextId
      ensures Valid()
      ensures durationSeconds <= 0 ==>
        r == Fail(InvalidArgument) && sessions == old(sessions) && nextId == old(nextId)
      ensures durationSeconds > 0 ==>
        var id := old(NextFreeId());
        r == Pass &&
        sessions == old(sessions)[id := CompletedRecord(id, now, durationSeconds, kind, true)] &&
        TodaySessions() == old(TodaySessions()) + [sessions[id]]
    {
      if durationSeconds <= 0 {
        return Fail(InvalidArgument);
      }
      var id := NextFreeId();
      var s := CompletedRecord(id, now, durationSeconds, kind, true);
      InsertToday(s);
      r := Pass;
    }

    /** Inserts a record completed and created now under the next id; it
        joins today's records. */
    method InsertToday(s: Session)
      requires Valid()
      requires s.id == NextFreeId() && s.completed && s.createdAt == now
      modifies this`sessions, this`nextId
      ensures Valid()
      ensures sessions == old(sessions)[s.id := s] && nextId == old(nextId) + 1
      ensures TodaySessions() == old(TodaySessions()) + [s]
    {
      var today := Calendar.TodayRange(now);
      InsertInRange(sessions, nextId, s, today.start, today.end);
      sessions := sessions[s.id := s];
      nextId := nextId + 1;
    }

    /** `createCheckin`, run sequentially. A fresh lock gives `Busy` and a
        used-up quota `LimitExceeded`, both with nothing written (the
        transaction aborts). Otherwise one check-in record is added and the
        lock, written in the same transaction, is deleted afterwards unless
        that best-effort delete fails. A successful call never takes today's
        count above the limit. */
    method CreateCheckin(releaseFails: bool) returns (r: Result<string, Error>)
      requires Valid()
      requires settings.GetUserSettings().checkinBonusInterval > 0
      modifies this`sessions, this`nextId, this`lock
      ensures Valid()
      ensures old(LockBusy()) ==>
        r == Failure(Busy) && sessions == old(sessions) && nextId == old(nextId) && lock == old(lock)
      ensures !old(LockBusy()) && old(CheckinsUsed()) >= old(CheckinLimit()) ==>
        r == Failure(LimitExceeded) && sessions == old(sessions) && nextId == old(nextId) && lock == old(lock)
      ensures !old(LockBusy()) && old(CheckinsUsed()) < old(CheckinLimit()) ==>
        var id := old(NextFreeId());
        r == Success(id) &&
        sessions == old(sessions)[id := CompletedRecord(id, now, 0, Checkin, false)] &&
        lock == (if releaseFails then Some(CheckinLock(now, userId)) else None)
      ensures r.Success? ==>
        CheckinsUsed() == old(CheckinsUsed()) + 1 && CheckinLimit() == old(CheckinLimit()) &&
        CheckinsUsed() <= CheckinLimit()
    {
      if lock.Some? && now - lock.value.timestamp < LOCK_TTL_MS {
        return Failure(Busy);
      }
      // The transaction's reads: today's records and the stored interval.
      var today := TodaySessions();
      var used := CountKind(today, Checkin);
      var interval := settings.GetUserSettings().checkinBonusInterval;
      var limit := DailyLimit(SumDurations(today, Focus), interval);
      if used >= limit {
        return Failure(LimitExceeded);
      }
      // The transaction's writes: the lock and the check-in record, together.
      var id := NextFreeId();
      var checkin := CompletedRecord(id, now, 0, Checkin, false);
      lock := Some(CheckinLock(now, userId));
      InsertToday(checkin);
      AggregatesAppend(today, [checkin], Checkin);
      AggregatesAppend(today, [checkin], Focus);
      // Best-effort release after the commit.
      if !releaseFails {
        lock := None;
      }
      r := Success(id);
    }

    /** `checkIncompleteSession`: classifies the latest incomplete record and,
        when it finished while the app was closed, marks it completed. */
    method CheckIncompleteSession() returns (st: IncompleteStatus)
      requires Valid()
      modifies this`sessions
      ensures Valid()
      ensures st == old(IncompleteStatus())
      ensures st.IncompleteCompleted? ==>
        st.session.id in old(sessions) &&
        sessions == old(sessions)[st.session.id := old(sessions)[st.session.id].(completed := true, completedAt := Some(now))]
      ensures !st.IncompleteCompleted? ==> sessions == old(sessions)
    {
      ListingMembers(sessions, nextId);
      st := IncompleteStatus();
      if st.IncompleteCompleted? {
        var latest := LatestIncomplete(All());
        assert latest.value in sessions.Values;
        var _ := CompleteSession(st.session.id);
      }
    }
  }
}
