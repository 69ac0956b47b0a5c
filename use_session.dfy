/** The session callbacks (src/hooks/useSession.ts): an authentication guard,
    then calls into the signed-in user's session store and recent-durations
    list. `user` is the signed-in uid, if any. */
module SessionHooks {
  import opened Wrappers
  import opened SessionTypes
  import Constants
  import Sessions
  import SessionRules
  import Templates

  /** The quick-select presets for a session type: focus has its own list,
      every other type uses the break list. */
  function Presets(kind: SessionType): (p: seq<int>)
    ensures kind == Focus ==> p == Constants.FOCUS_PRESETS
    ensures kind != Focus ==> p == Constants.BREAK_PRESETS
  {
    if kind == Focus then Constants.FOCUS_PRESETS else Constants.BREAK_PRESETS
  }

  class SessionHook {
    const user: Option<string>
    const store: Sessions.SessionStore
    const recent: Templates.RecentDurationsStore

    constructor (user: Option<string>, store: Sessions.SessionStore, recent: Templates.RecentDurationsStore)
      ensures this.user == user && this.store == store && this.recent == recent
    {
      this.user := user;
      this.store := store;
      this.recent := recent;
    }

    /** `startSession`: creates the record and, unless the duration is one of
        the type's presets, moves it to the front of the recent durations. It
        returns exactly the id and start time `createSession` produced. */
    method StartSession(duration: int, kind: SessionType) returns (r: Result<(string, int), Error>)
      requires store.Valid()
      modifies store`sessions, store`nextId, recent
      ensures store.Valid()
      ensures user.None? ==>
        r == Failure(Unauthenticated) && store.sessions == old(store.sessions) &&
        store.nextId == old(store.nextId) && recent.doc == old(recent.doc)
      ensures user.Some? ==>
        r.Success? && r.value.0 !in old(store.sessions) && r.value.1 == store.now &&
        store.sessions == old(store.sessions)[r.value.0 := Session(r.value.0, store.now, duration, kind,
                                                                   false, false, false, None, store.now)]
      ensures user.Some? && duration !in Presets(kind) ==>
        recent.GetRecentDurations() == Templates.WithRecent(old(recent.GetRecentDurations()), duration)
      ensures user.None? || duration in Presets(kind) ==> recent.doc == old(recent.doc)
    {
      if user.None? {
        return Failure(Unauthenticated);
      }
      var id, startTime := store.CreateSession(duration, kind);
      if duration !in Presets(kind) {
        var _ := recent.AddRecentDuration(duration);
      }
      r := Success((id, startTime));
    }

    /** `endSession`: `completeSession` and nothing else. */
    method EndSession(id: string) returns (r: Outcome<Error>)
      requires store.Valid()
      modifies store`sessions
      ensures store.Valid()
      ensures user.None? ==> r == Fail(Unauthenticated) && store.sessions == old(store.sessions)
      ensures user.Some? && id in old(store.sessions) ==>
        r == Pass &&
        store.sessions == old(store.sessions)[id := old(store.sessions)[id].(completed := true,
                                                                            completedAt := Some(store.now))]
      ensures user.Some? && id !in old(store.sessions) ==>
        r == Fail(NotFound) && store.sessions == old(store.sessions)
    {
      if user.None? {
        return Fail(Unauthenticated);
      }
      r := store.CompleteSession(id);
    }

    /** `stopSession`: a positive elapsed time is saved as a partial session;
        otherwise, including when no elapsed time is given, the record is deleted. */
    method StopSession(id: string, elapsedSeconds: Option<int>) returns (r: Outcome<Error>)
      requires store.Valid()
      modifies store`sessions
      ensures store.Valid()
      ensures user.None? ==> r == Fail(Unauthenticated) && store.sessions == old(store.sessions)
      ensures user.Some? && elapsedSeconds.Some? && elapsedSeconds.value > 0 && id in old(store.sessions) ==>
        r == Pass &&
        store.sessions == old(store.sessions)[id := old(store.sessions)[id].(
          duration := elapsedSeconds.value, completed := true, interrupted := true,
          completedAt := Some(store.now))]
      ensures user.Some? && elapsedSeconds.Some? && elapsedSeconds.value > 0 && id !in old(store.sessions) ==>
        r == Fail(NotFound) && store.sessions == old(store.sessions)
      ensures user.Some? && !(elapsedSeconds.Some? && elapsedSeconds.value > 0) ==>
        r == Pass && store.sessions == old(store.sessions) - {id}
    {
      if user.None? {
        return Fail(Unauthenticated);
      }
      if elapsedSeconds.Some? && elapsedSeconds.value > 0 {
        r := store.SavePartialSession(id, elapsedSeconds.value);
      } else {
        store.CancelSession(id);
        r := Pass;
      }
    }

    /** `checkIncomplete`: `none` without a user. */
    method CheckIncomplete() returns (st: SessionRules.IncompleteStatus)
      requires store.Valid()
      modifies store`sessions
      ensures store.Valid()
      ensures user.None? ==> st == SessionRules.IncompleteNone && store.sessions == old(store.sessions)
      ensures user.Some? ==> st == old(store.IncompleteStatus())
      ensures user.Some? && st.IncompleteCompleted? ==>
        st.session.id in old(store.sessions) &&
        store.sessions == old(store.sessions)[st.session.id := old(store.sessions)[st.session.id].(
          completed := true, completedAt := Some(store.now))]
      ensures !st.IncompleteCompleted? ==> store.sessions == old(store.sessions)
    {
      if user.None? {
        return SessionRules.IncompleteNone;
      }
      st := store.CheckIncompleteSession();
    }

    /** `checkRecentBreak`: `none` without a user, otherwise the store's
        recent exceeded session. */
    function CheckRecentBreak(): (st: SessionRules.ExceededStatus)
      reads this, store, store.settings
      requires store.Valid()
      ensures user.None? ==> st == SessionRules.ExceededNone
      ensures user.Some? ==> st == store.CheckRecentExceededSession()
    {
      if user.None? then SessionRules.ExceededNone else store.CheckRecentExceededSession()
    }

    /** `dismissExceededSession`: `dismissSession` and nothing else. */
    method DismissExceededSession(id: string) returns (r: Outcome<Error>)
      requires store.Valid()
      modifies store`sessions
      ensures store.Valid()
      ensures user.None? ==> r == Fail(Unauthenticated) && store.sessions == old(store.sessions)
      ensures user.Some? && id in old(store.sessions) ==>
        r == Pass && store.sessions == old(store.sessions)[id := old(store.sessions)[id].(dismissed := true)]
      ensures user.Some? && id !in old(store.sessions) ==>
        r == Fail(NotFound) && store.sessions == old(store.sessions)
    {
      if user.None? {
        return Fail(Unauthenticated);
      }
      r := store.DismissSession(id);
    }

    /** `checkIn`: `createCheckin` behind the guard. */
    method CheckIn(releaseFails: bool) returns (r: Result<string, Error>)
      requires store.Valid()
      requires user.Some? ==> store.settings.GetUserSettings().checkinBonusInterval > 0
      modifies store`sessions, store`nextId, store`lock
      ensures store.Valid()
      ensures user.None? ==>
        r == Failure(Unauthenticated) && store.sessions == old(store.sessions) &&
        store.nextId == old(store.nextId) && store.lock == old(store.lock)
      ensures user.Some? && old(store.LockBusy()) ==>
        r == Failure(Busy) && store.sessions == old(store.sessions) &&
        store.nextId == old(store.nextId) && store.lock == old(store.lock)
      ensures user.Some? && !old(store.LockBusy()) && old(store.CheckinsUsed()) >= old(store.CheckinLimit()) ==>
        r == Failure(LimitExceeded) && store.sessions == old(store.sessions) &&
        store.nextId == old(store.nextId) && store.lock == old(store.lock)
      ensures user.Some? && !old(store.LockBusy()) && old(store.CheckinsUsed()) < old(store.CheckinLimit()) ==>
        var id := old(store.NextFreeId());
        r == Success(id) &&
        store.sessions == old(store.sessions)[id := Sessions.CompletedRecord(id, store.now, 0, Checkin, false)] &&
        store.lock == (if releaseFails then Some(Sessions.CheckinLock(store.now, store.userId)) else None)
      ensures r.Success? ==>
        user.Some? && !old(store.LockBusy()) &&
        store.CheckinsUsed() == old(store.CheckinsUsed()) + 1 && store.CheckinsUsed() <= store.CheckinLimit()
    {
      if user.None? {
        return Failure(Unauthenticated);
      }
      r := store.CreateCheckin(releaseFails);
    }

    /** `getCheckInStatus`: no status without a user. */
    function GetCheckInStatus(): (st: Option<SessionRules.CheckInStatus>)
      reads this, store, store.settings
      requires store.Valid()
      ensures user.None? <==> st.None?
      ensures st.Some? ==> st.value == store.CanCheckIn(None)
    {
      if user.None? then None else Some(store.CanCheckIn(None))
    }

    /** `addManualTime`: the store's `addManualTime` behind the guard. */
    method AddManualTime(kind: SessionType, durationSeconds: int) returns (r: Outcome<Error>)
      requires store.Valid()
      requires kind == Focus || kind == Break
      modifies store`sessions, store`nextId
      ensures store.Valid()
      ensures user.None? ==>
        r == Fail(Unauthenticated) && store.sessions == old(store.sessions) && store.nextId == old(store.nextId)
      ensures user.Some? && durationSeconds <= 0 ==>
        r == Fail(InvalidArgument) && store.sessions == old(store.sessions)
      ensures user.Some? && durationSeconds > 0 ==>
        var id := old(store.NextFreeId());
        r == Pass &&
        store.sessions == old(store.sessions)[id := Sessions.CompletedRecord(id, store.now, durationSeconds, kind, true)] &&
        store.TodaySessions() == old(store.TodaySessions()) + [store.sessions[id]]
    {
      if user.None? {
        return Fail(Unauthenticated);
      }
      r := store.AddManualTime(kind, durationSeconds);
    }
  }
}
