/** The plain records the stores and storages exchange (the JSDoc typedefs of the stores). */
module Records {
  import opened Wrappers

  /** Per-word memory record kept by the progress store (`WordProgress`).
      App states are the strings 'New', 'Learning', 'Review', 'Relearning' and ratings the
      strings 'forgot', 'remembered', 'perfect'; both stay strings because the code compares
      them as strings and has fallbacks for any other value. Timestamps are epoch
      milliseconds; JavaScript numbers that hold fractional values are reals. */
  datatype WordProgress = WordProgress(
    word: string,
    state: string,
    stability: real,
    difficulty: real,
    retrievability: real,
    elapsedDays: real,
    scheduledDays: real,
    reps: int,
    lapses: int,
    lastReview: int,
    due: int,
    lastRating: string,
    correctCount: int,
    wrongCount: int,
    totalStudyTimeSec: real)

  /** One study session (`StudySession`); `endAt` is None while the session runs. */
  datatype StudySession = StudySession(
    id: string,
    startAt: int,
    endAt: Option<int>,
    totalActiveSec: int,
    studyCount: int)

  /** One answer in the study log (`StudyLog`). */
  datatype StudyLog = StudyLog(
    word: string,
    timestamp: int,
    rating: string,
    timeSpentSec: real,
    state: string)

  /** Streak statistics (`StudyStats`); dates are 'YYYY-MM-DD' strings. */
  datatype StudyStats = StudyStats(
    currentStreak: int,
    longestStreak: int,
    totalStudies: int,
    lastStudyDate: string)

  const FORGOT := "forgot"
  const REMEMBERED := "remembered"
  const PERFECT := "perfect"
  const STATE_NEW := "New"
  const STATE_LEARNING := "Learning"
  const STATE_REVIEW := "Review"
  const STATE_RELEARNING := "Relearning"

  /** Milliseconds per day, `1000 * 60 * 60 * 24`. */
  const MS_PER_DAY := 86400000

  /** `(later - earlier) / (1000 * 60 * 60 * 24)` as a JavaScript number. */
  function DaysBetween(earlier: int, later: int): (d: real)
    ensures later >= earlier ==> d >= 0.0
    ensures later - earlier == MS_PER_DAY ==> d == 1.0
    ensures d * MS_PER_DAY as real == (later - earlier) as real
  {
    (later - earlier) as real / MS_PER_DAY as real
  }

  /** Day counts add up along the time axis. */
  lemma DaysBetweenAdditive(a: int, b: int, c: int)
    ensures DaysBetween(a, b) + DaysBetween(b, c) == DaysBetween(a, c)
  {
  }
}
