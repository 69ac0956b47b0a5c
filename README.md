# focus-distraction, modelled in Dafny

This project models the core of focus-distraction, a focus timer web app.

- A user runs focus and break sessions against a countdown, watches a tree grow while the timer runs, and logs "check-ins".
- Check-ins are allowed three times a day, plus one for every completed block of focus time.
- The app keeps per-user records of sessions, settings and recently used durations, and reports daily, weekly and four-week statistics.

The model covers the session store with its check-in quota and recovery queries, the statistics, the recent-durations list, the settings merge, the duration parser and formatters, the calendar ranges, the timer state machine, the session callbacks, the tree animation's phase rule and the duration picker's field sanitiser.

Modules, one per file:

- Foundations:
  - `Wrappers`: `Option`, `Result` and `Outcome`.
  - `Constants`: the values from src/utils/constants.ts.
  - `Decimal`: digit strings and natural numbers.
  - `SessionTypes`: the session record and the service errors.
- `Duration` and `Format`: src/utils/duration.ts and src/utils/format.ts, pure functions.
- `Calendar`: src/utils/date.ts.
  - Instants are integer milliseconds of local time.
  - Every day is exactly 24 hours.
  - 1970-01-01 is a Thursday.
  - Weeks start on Monday.
- `Settings` and `Templates`: the pure defaulting and move-to-front rules, plus a store class each for the stored document.
- `SessionRules` and `Sessions`:
  - `SessionRules` holds the filters, the quota arithmetic and the recovery classifiers, as functions over record lists.
  - `Sessions.SessionStore` is a class over `map<string, Session>` whose methods are the store mutators.
- `Stats`: src/services/stats.ts.
- `Timer`: the pure `tick` plus the `TimerHook` class for the hook's state and refs.
- `SessionHooks`: src/hooks/useSession.ts, as a class over the two stores.
- `TreeAnimation` and `DurationPicker`: the component rules.

Document ids are the decimal form of a counter, so every id is provably fresh. Records are listed in creation order. When two records tie on `startTime` or `completedAt`, the later-created one wins.

## Model

| member | source | states |
|---|---|---|
| Decimal.ValueOfFromNat | src/utils/duration.ts:36-39 | reading back the decimal form `toString()` writes gives the number |
| Decimal.FromNatOfValue | src/components/timer/DurationPicker.tsx:34-38 | a digit string without leading zeros is the `toString()` of its own value |
| Duration.Trim | src/utils/duration.ts:2-3 | the trimmed input is empty exactly when the input is all white space, where white space is ECMAScript's WhiteSpace and LineTerminator set |
| Duration.Split | src/utils/duration.ts:5 | `split(':')` yields at least one part, no part contains the separator, and an input without a separator is a single part |
| Duration.ParseDuration | src/utils/duration.ts:1-18 | white space only, more than three parts or a part that is not digits once trimmed gives no result; a blank part reads as 0; a result exists exactly when the weighted sum (h·3600+m·60+s, m·60+s or s) is positive, and it equals that sum |
| Duration.Decompose | src/utils/duration.ts:21-23 | hours, minutes and seconds recompose the total, with minutes and seconds below 60 |
| Duration.FormatDurationLabel | src/utils/duration.ts:20-30 | 0 gives `0s`; the label shows hours exactly when there is a whole hour, minutes exactly when the minute part is non-zero, and seconds only without hours and when seconds are non-zero or minutes are zero |
| Duration.LabelReadsBack | src/utils/duration.ts:20-30 | the label is words of a number and a unit, in descending units with minutes and seconds below 60, and they add up to the duration below an hour and to its whole minutes from an hour up |
| Duration.Pad2 | src/utils/duration.ts:34 | digits spelling k; exactly two characters below 100, and no leading zero from 10 on, which is what `padStart(2, '0')` gives |
| Duration.FormatCountdown | src/utils/duration.ts:32-40 | below an hour the shape is `MM:SS`, otherwise `HH:MM:SS`; the last two fields are two digits spelling the minutes and the seconds; the hour field spells the hours, is two characters below 100 hours and has no leading zero from 10 hours on |
| Duration.FormatCountdownRoundTrip | src/utils/duration.ts:1-40 | parsing the countdown of any positive number of seconds gives back that number |
| Format.FormatHoursMinutes | src/utils/format.ts:1-15 | never shows seconds; under a minute gives `0m`; shows hours exactly when there is a whole hour, and minutes when the minute part is non-zero or there are no hours |
| Format.HoursMinutesReadsBack | src/utils/format.ts:1-15 | the text reads back, in the same words as the duration label, as the whole minutes of the duration |
| Format.AgreesWithDurationLabel | src/utils/format.ts:1-15 | for durations of at least an hour or whole positive minutes, it writes the same text as the duration label |
| Calendar.StartOfWeek | src/utils/date.ts:11 | the Monday midnight at or before the instant, less than a week before it |
| Calendar.TodayRange | src/utils/date.ts:3-6 | the day-long range starting at midnight that holds now |
| Calendar.ThisWeekRange | src/utils/date.ts:8-14 | a week-long range holding now that starts on a Monday midnight |
| Calendar.TodayWithinThisWeek | src/utils/date.ts:3-14 | today's range lies within this week's range |
| Calendar.Last4WeeksRanges | src/utils/date.ts:16-29 | four ranges, the i-th starting i+1 weeks before this week's Monday; each ends just before the previous starts, and all end before this week |
| Calendar.Last4WeeksDisjoint | src/utils/date.ts:20-27 | no instant lies in two of the four weeks |
| Settings.ReadSettings | src/services/settings.ts:13-23 | no document gives the defaults; a document without an interval gives the default interval of 30; otherwise the stored interval |
| Settings.Overlay | src/services/settings.ts:37 | a given field replaces the base value, and an empty update leaves the settings as they are |
| Settings.SettingsStore.UpdateUserSettings | src/services/settings.ts:28-46 | without a document, the defaults overlaid with the update are written; otherwise the update is merged into the stored document. The result is what a read now returns, fields not given keep their values, and given fields win |
| Templates.Without | src/services/templates.ts:17 | removes every occurrence of the duration, keeps everything else, and keeps a duplicate-free list duplicate-free |
| Templates.WithoutAppend | src/services/templates.ts:17 | the filter keeps the order of the entries it keeps: it distributes over concatenation |
| Templates.WithRecent | src/services/templates.ts:15-21 | the new list starts with the duration, holds it once, holds at most five entries, is the longest prefix of the duration followed by the rest in order, and stays duplicate-free |
| Templates.WithRecentIdempotent | src/services/templates.ts:17-18 | recording the same duration twice gives the same list as recording it once |
| Templates.ReadRecent | src/services/templates.ts:9-13 | a missing document or a missing list reads as empty |
| Templates.RecentDurationsStore.AddRecentDuration | src/services/templates.ts:15-21 | the stored list becomes the move-to-front update of the old list, and that list is returned |
| SessionRules.FilterInRange | src/services/sessions.ts:317-330 | a record is returned exactly when it is completed and created within the inclusive range |
| SessionRules.AggregatesAppend | src/services/sessions.ts:108-112 | the per-type duration sum and count of a concatenation are the sums of the parts |
| SessionRules.EffectiveInterval | src/services/sessions.ts:115-127 | a positive argument is used; a missing or zero argument falls back to the stored setting; a non-positive result of either becomes 30 |
| SessionRules.DailyLimit | src/services/sessions.ts:129-131 | three plus the number of whole intervals of focus time: at least three for non-negative focus, and the bonus count is the floor of focus over the interval in seconds |
| SessionRules.MinutesToNextBonus | src/services/sessions.ts:134-136 | between 1 and the interval; equal to the interval exactly on a boundary; adding it to the focus minutes reaches a multiple of the interval |
| SessionRules.NextBonusRaisesLimit | src/services/sessions.ts:129-136 | focusing for the minutes named as "to next bonus" raises the daily limit by exactly one |
| SessionRules.CheckInStatusOf | src/services/sessions.ts:105-138 | used is today's check-in count, the limit is the daily limit of today's focus, check-in is allowed exactly when used is below the limit, and the minutes to the next bonus are those of today's focus time |
| SessionRules.LatestIncomplete | src/services/sessions.ts:255-263 | no result exactly when every record is completed; otherwise an incomplete record whose start is not before any other incomplete one |
| SessionRules.RemainingSeconds | src/services/sessions.ts:277 | the ceiling of the planned duration minus the elapsed seconds |
| SessionRules.ClassifyIncomplete | src/services/sessions.ts:263-278 | nothing found gives `none`; a session whose duration has elapsed is reported completed; otherwise `resume` with remaining = ceil(duration − elapsed) seconds, stated as the bracket (r−1)·1000 < duration·1000 − (now − start) ≤ r·1000, at least 1 and at most the duration once the start has passed |
| SessionRules.LatestExceeded | src/services/sessions.ts:286-297 | no result exactly when no focus, break or cool-off record completed uninterrupted and undismissed within two hours; otherwise the one completed last |
| SessionRules.ExceededSeconds | src/services/sessions.ts:309-312 | whole seconds since completion, never negative |
| SessionRules.ClassifyExceeded | src/services/sessions.ts:300-314 | a missing record or a missing completion time gives `none`; otherwise `exceeded` with the record and its seconds since completion |
| SessionRules.DismissedNotReported | src/services/sessions.ts:89-94 | after the only exceeded candidate is dismissed, the exceeded check reports `none` |
| Sessions.ListingInsert | src/services/sessions.ts:45 | the next id is fresh, and inserting under it appends the record to the listing and keeps the store well keyed |
| Sessions.SessionStore.NextFreeId | src/services/sessions.ts:45 | the id a new document receives is not in use |
| Sessions.SessionStore.QuerySessionsInRange | src/services/sessions.ts:317-330 | exactly the completed records created within the range; never a running one |
| Sessions.SessionStore.CanCheckIn | src/services/sessions.ts:96-139 | today's check-ins against the daily limit for the effective interval, and the minutes to the next bonus of today's focus time under that interval; at least three allowed, and between 1 and the interval minutes to go, when durations are non-negative |
| Sessions.SessionStore.CheckRecentExceededSession | src/services/sessions.ts:281-315 | `none` exactly when no record is eligible; otherwise an eligible record completed last, with its seconds since completion |
| Sessions.SessionStore.CreateSession | src/services/sessions.ts:41-60 | inserts one record under a fresh id, starting now, not completed, interrupted or dismissed, without completion time; returns that id and now |
| Sessions.SessionStore.CompleteSession | src/services/sessions.ts:62-68 | sets only `completed` and `completedAt` of the target; a missing target is reported and nothing changes |
| Sessions.SessionStore.CancelSession | src/services/sessions.ts:70-73 | removes only that id |
| Sessions.SessionStore.SavePartialSession | src/services/sessions.ts:75-87 | sets only the duration to the elapsed time, `completed`, `interrupted` and `completedAt`; a missing target is reported |
| Sessions.SessionStore.DismissSession | src/services/sessions.ts:89-94 | sets only `dismissed`, after which the record is no exceeded candidate; a missing target is reported |
| Sessions.SessionStore.AddManualTime | src/services/sessions.ts:225-248 | a non-positive duration is rejected with nothing written; otherwise one completed, uninterrupted, dismissed record starting and completed now is added, and it joins today's records |
| Sessions.SessionStore.CreateCheckin | src/services/sessions.ts:141-223 | a fresh lock gives `Busy` and a used-up quota `LimitExceeded`, both with nothing written; otherwise one check-in record is added and the lock released unless the release fails; a success raises today's count by one without passing the limit |
| Sessions.SessionStore.CheckIncompleteSession | src/services/sessions.ts:250-279 | returns the classification of the stored records, and marks the record completed exactly when it is reported completed |
| Stats.Summarize | src/services/stats.ts:11-28 | the completed count is at most the number of records |
| Stats.SummarizeAppend | src/services/stats.ts:11-28 | the summary of a concatenation is the field-wise sum of the summaries |
| Stats.SummarizeOne | src/services/stats.ts:13-27 | one record counts as completed unless interrupted, and adds its duration to the focus or break total of its own type only |
| Stats.CheckinAndCooloffAddNoTime | src/services/stats.ts:16-21 | check-in and cool-off records add no time, but count as completed when not interrupted |
| Stats.FlipInterrupted | src/services/stats.ts:12-21 | interrupted records still count toward time: flipping `interrupted` changes only the completed count, by one |
| Stats.GetTodayStats | src/services/stats.ts:30-33 | the summary of the range query over today's range |
| Stats.GetThisWeekStats | src/services/stats.ts:35-38 | the summary of the range query over this week's range |
| Stats.SummaryWithinRange | src/services/stats.ts:30-38 | a narrower range never shows more completed sessions or, for non-negative durations, more time |
| Stats.TodayWithinWeekStats | src/services/stats.ts:30-38 | this week's statistics include today's |
| Stats.GetLast4WeeksStats | src/services/stats.ts:40-50 | four entries, in range order, each the summary of its own week's query |
| Stats.ManualFocusShowsToday | src/services/stats.ts:11-33 | a manual focus entry adds its duration to today's focus time and one completed session |
| Timer.RemainingAt | src/hooks/useTimer.ts:31-32 | the countdown is never negative, is zero exactly when the whole duration has elapsed, is otherwise the least whole number of seconds covering the time left, and is at most the duration once the start has passed |
| Timer.RemainingNonIncreasing | src/hooks/useTimer.ts:31-32 | the countdown never goes up as time advances |
| Timer.Tick | src/hooks/useTimer.ts:27-56 | no change unless running or exceeded with a start time; a running timer at zero goes to exceeded with completion time now and schedules the callback; an exceeded one updates its floored seconds since completion; otherwise remaining is updated and stays positive; status changes only from running to exceeded |
| Timer.AtMostOneCompletion | src/hooks/useTimer.ts:34-46 | over any run of ticks the completion callback is scheduled at most once |
| Timer.TimerHook.Start | src/hooks/useTimer.ts:58-77 | a running state over the whole duration with the given mode, id and start, no completion time and no exceeded seconds; the interval runs and the callback is stored |
| Timer.TimerHook.Resume | src/hooks/useTimer.ts:79-105 | the same as start, with the given remaining seconds and the original start time |
| Timer.TimerHook.Stop | src/hooks/useTimer.ts:107-112 | the initial state, with no interval and no callback |
| Timer.TimerHook.Reset | src/hooks/useTimer.ts:114-119 | the initial state, with no interval and no callback |
| Timer.TimerHook.SetTimerState | src/hooks/useTimer.ts:121-128 | replaces the state; an exceeded state starts the interval; the callback is kept |
| Timer.TimerHook.OnTick | src/hooks/useTimer.ts:27-56 | the state becomes the tick of the old state, and a completion is queued exactly when the tick schedules one |
| Timer.TimerHook.FirePendingCompletion | src/hooks/useTimer.ts:36 | a queued completion calls the callback current when it fires |
| Timer.StopCancelsCompletion | src/hooks/useTimer.ts:34-36 | a completion scheduled by the tick that runs out the countdown calls no callback when `stop` comes first |
| Timer.TimerHook.ElapsedSeconds | src/hooks/useTimer.ts:130 | elapsed and remaining seconds add up to the duration |
| Timer.TimerHook.Progress | src/hooks/useTimer.ts:131 | 0 without a positive duration; otherwise the elapsed share of the duration, within [0, 1] while remaining is within the duration |
| SessionHooks.Presets | src/hooks/useSession.ts:27 | focus sessions use the focus presets and every other type the break presets |
| SessionHooks.SessionHook.StartSession | src/hooks/useSession.ts:22-35 | without a user, fails with nothing changed; otherwise creates the record, returns exactly its id and start, and records the duration as recent exactly when it is not a preset of the type |
| SessionHooks.SessionHook.EndSession | src/hooks/useSession.ts:37-43 | without a user, fails; otherwise does exactly what completing the session does |
| SessionHooks.SessionHook.StopSession | src/hooks/useSession.ts:45-55 | without a user, fails; a positive elapsed time saves a partial session; a missing or non-positive one deletes the record |
| SessionHooks.SessionHook.CheckIncomplete | src/hooks/useSession.ts:57-60 | without a user, `none` with nothing changed; otherwise the store's incomplete-session check |
| SessionHooks.SessionHook.CheckRecentBreak | src/hooks/useSession.ts:62-65 | without a user `none`, otherwise the store's recent exceeded session |
| SessionHooks.SessionHook.DismissExceededSession | src/hooks/useSession.ts:67-73 | without a user, fails; otherwise does exactly what dismissing the session does |
| SessionHooks.SessionHook.CheckIn | src/hooks/useSession.ts:75-78 | without a user, fails with nothing changed; otherwise exactly what creating a check-in does: `Busy` on a fresh lock and `LimitExceeded` on a used-up quota, both with nothing written, else the check-in record added under a fresh id and the lock released unless the release fails |
| SessionHooks.SessionHook.GetCheckInStatus | src/hooks/useSession.ts:80-83 | no status exactly when there is no user; otherwise the store's check-in status |
| SessionHooks.SessionHook.AddManualTime | src/hooks/useSession.ts:85-91 | without a user, fails with nothing changed; otherwise the store's manual entry, rejecting non-positive durations |
| TreeAnimation.GetAnimationState | src/components/tree/TreeAnimation.tsx:21-35 | idle is a seed at 0 and completed is complete at 1; up to two minutes it is sprouting at elapsed/120; afterwards growing at the capped share of the remaining duration, or 1 when the duration is two minutes or less; progress stays within [0, 1] |
| TreeAnimation.Visible | src/components/tree/TreeAnimation.tsx:97-98 | an element of a mounted group is shown exactly when progress has reached its threshold |
| TreeAnimation.Render | src/components/tree/TreeAnimation.tsx:40-153 | the sprout is shown past the seed phase and the tree when growing or complete; the stem is drawn to the sprout progress (full after sprouting) and the trunk to three times the tree progress, capped at 1; each sprout leaf, branch and canopy leaf is shown exactly when its group is mounted and the group's progress has reached its threshold |
| TreeAnimation.VisibleMonotone | src/components/tree/TreeAnimation.tsx:97-148 | more progress never hides an element |
| TreeAnimation.ProgressMonotone | src/components/tree/TreeAnimation.tsx:21-43 | as a running timer advances, the phase never goes back and the sprout and tree progress never drop |
| TreeAnimation.SceneGrows | src/components/tree/TreeAnimation.tsx:37-157 | as a running timer advances, nothing that has appeared disappears and the stem and trunk never shrink |
| TreeAnimation.CompleteShowsAll | src/components/tree/TreeAnimation.tsx:23 | a completed timer shows every element in full |
| DurationPicker.DigitsOnly | src/components/timer/DurationPicker.tsx:29 | keeps exactly the digit characters of the input |
| DurationPicker.DigitsOnlyAppend | src/components/timer/DurationPicker.tsx:29 | the digits keep their order: the filter distributes over concatenation |
| DurationPicker.Sanitize | src/components/timer/DurationPicker.tsx:24-40 | empty exactly when no digit remains; otherwise the number the digits spell, clamped to the field's maximum, without leading zeros |
| DurationPicker.SanitizeIdempotent | src/components/timer/DurationPicker.tsx:24-40 | sanitising a sanitised field changes nothing |
| DurationPicker.Total | src/components/timer/DurationPicker.tsx:14-17 | zero exactly when every field reads 0; at most 86399 for fields within 23/59/59 |
| DurationPicker.TotalOfDecompose | src/components/timer/DurationPicker.tsx:14-17 | for every n ≤ 86399, the fields holding n's hours, minutes and seconds are sanitised and total n, so the fields weigh 3600, 60 and 1 |
| DurationPicker.TotalReadsBlankAsZero | src/components/timer/DurationPicker.tsx:14-16 | an empty field counts as `0`, since an empty parse falls back to 0 |
| DurationPicker.Picker.HandleNumberInput | src/components/timer/DurationPicker.tsx:13-40 | the edited field becomes its sanitised value and the others stay; the total is reported exactly when a field changed and the total is positive, and every reported total lies in 1..86399 |

## Left out

- Firestore, the Firebase SDK and the network are not modelled. Each store is a map or an optional document in memory, and server and client time are one clock `now`, set with `SetClock`.
- Concurrency is not modelled. `createCheckin` runs sequentially, so transaction isolation and the non-transactional `getDocs` inside the transaction are outside the model. The best-effort lock release is a parameter (`releaseFails`).
- The check-in lock key uses the UTC date, while the count uses the local day. The model keeps one lock slot.
- Document ids are the decimal form of a counter, not random Firestore ids.
- Result order is not modelled. The model returns records in creation order, and no consumer depends on it. Ties on `startTime` or `completedAt` go to the later-created record.
- JavaScript `Number()` and `parseInt` quirks are not modelled: signs, decimals, exponents, hex, `Infinity` and float precision on large inputs. A numeric field is digits once its surrounding white space is stripped, and a blank field such as the one in `"5:"` reads as 0.
- Time zones, daylight saving time and the date-fns internals are not modelled. So are the `"Week of …"` labels: each weekly entry carries its range instead.
- The timer's `setInterval`, `setTimeout` and React effect cleanup are not modelled. The interval is the `ticking` flag, callbacks are named by numbers, and scheduled completions are counted in `pendingCompletions`.
- Authentication, routing, layout, the rendering components, the settings unlock modal, the React state hooks other than useTimer and useSession, and the SVG path data are not modelled. Only the thresholds of the SVG data are kept.
- Sessions.SessionStore.CreateCheckin: requires a positive stored interval. The source divides by the stored interval without a check. An interval of 0 gives an infinite limit, or NaN with no focus time; a negative one gives a finite limit of at most 3.
- SessionHooks.SessionHook.CheckIn: carries the same positive-interval precondition as `CreateCheckin`.
- Sessions.SessionStore.AddManualTime: takes only focus and break, the two types the source's signature allows.
- Duration.FormatDurationLabel: its contract is stated for non-negative seconds. Negative inputs to the formatters are not modelled.
- Format.FormatHoursMinutes: its contract is stated for non-negative seconds only.
- Stored values are not checked on read. A stored bonus interval outside the dropdown's options is used as it is, as in the source.
- `sessionsCompleted` counts every uninterrupted record of any type, check-ins and cool-offs included.
- The statistics summary has three fields: `sessionsCompleted`, `focusSeconds` and `breakSeconds`.
- The session callbacks call `checkRecentBreakSession`, which the session service does not export. `CheckRecentBreak` models it as `checkRecentExceededSession`.
- src/services/sessions.ts:19 imports `CHECKIN_BASE_LIMIT`, but src/utils/constants.ts:1-5 does not define it. The model takes 3.
- The timer's `progress`, the tree animation and the picker use exact arithmetic: reals for ratios, unbounded integers for totals. Floating-point rounding is not modelled.
