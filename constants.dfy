/** The application-wide constants (src/utils/constants.ts). */
module Constants {

  /** Focus durations offered as presets, in seconds. */
  const FOCUS_PRESETS: seq<int> := [25 * 60, 45 * 60, 60 * 60]

  /** Break durations offered as presets, in seconds. */
  const BREAK_PRESETS: seq<int> := [5 * 60, 10 * 60, 15 * 60]

  /** Length of the recent-durations list. */
  const MAX_RECENT_DURATIONS: nat := 5

  /** Seconds the seed takes to become a sprout. */
  const SEED_TO_PLANT_DURATION: nat := 2 * 60

  /** Cadence of the countdown timer, in milliseconds. */
  const TIMER_TICK_INTERVAL: nat := 1000

  /** Daily check-ins every user gets before any bonus. */
  const CHECKIN_BASE_LIMIT: nat := 3
}
