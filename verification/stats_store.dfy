/** The streak statistics store: an in-memory `StudyStats` value that every update
    writes through to its storage key. */
module StatsStore {
  import opened Wrappers
  import opened Records

  /** The initial and reset value, also what loading an absent key yields. */
  const INITIAL_STATS := StudyStats(0, 0, 0, "")

  function Max(a: int, b: int): int {
    if a >= b then a else b
  }

  /** `date || today`: an absent or empty date falls back to the clock's today. */
  function EffectiveToday(date: Option<string>, clockToday: string): (d: string)
    ensures date.Some? && date.value != "" ==> d == date.value
    ensures date.None? || date.value == "" ==> d == clockToday
  {
    if date.Some? && date.value != "" then date.value else clockToday
  }

  /** The streak transition for a study on `today`, given the calendar's `yesterday`.
      A second study on the same day changes nothing; otherwise the streak continues
      from yesterday or restarts at 1, and the best streak follows it. */
  function StreakTransition(s: StudyStats, today: string, yesterday: string): (r: StudyStats)
    ensures s.lastStudyDate == today ==> r == s
    ensures s.lastStudyDate != today ==>
      && r.lastStudyDate == today
      && r.totalStudies == s.totalStudies
      && (s.lastStudyDate == yesterday ==> r.currentStreak == s.currentStreak + 1)
      && (s.lastStudyDate != yesterday ==> r.currentStreak == 1)
      && r.longestStreak >= r.currentStreak
    ensures r.longestStreak >= s.longestStreak
    ensures r.longestStreak == s.longestStreak || r.longestStreak == r.currentStreak
  {
    if s.lastStudyDate == today then s
    else
      var streak := if s.lastStudyDate == yesterday then s.currentStreak + 1 else 1;
      s.(currentStreak := streak, longestStreak := Max(s.longestStreak, streak), lastStudyDate := today)
  }

  /** Studying again on the same day is a no-op: the transition is idempotent. */
  lemma StreakIdempotent(s: StudyStats, today: string, yesterday: string)
    ensures StreakTransition(StreakTransition(s, today, yesterday), today, yesterday)
         == StreakTransition(s, today, yesterday)
  {
  }

  /** The best streak is never below the current one, once that holds. */
  lemma LongestCoversCurrent(s: StudyStats, today: string, yesterday: string)
    requires s.longestStreak >= s.currentStreak
    ensures StreakTransition(s, today, yesterday).longestStreak
         >= StreakTransition(s, today, yesterday).currentStreak
  {
  }

  /** Studying on each of `days` in turn, where `yesterdays[i]` is the calendar day
      before `days[i]`. */
  function StudyOnDays(s: StudyStats, days: seq<string>, yesterdays: seq<string>): StudyStats
    requires |days| == |yesterdays|
    decreases |days|
  {
    if days == [] then s
    else StudyOnDays(StreakTransition(s, days[0], yesterdays[0]), days[1..], yesterdays[1..])
  }

  /** Studying on `n` consecutive days, starting on a day not yet studied, adds `n` to a
      streak that was alive yesterday and otherwise makes it exactly `n`. */
  lemma {:induction false} ConsecutiveDaysStreak(s: StudyStats, days: seq<string>, yesterdays: seq<string>)
    requires |days| == |yesterdays| >= 1
    requires s.lastStudyDate != days[0]
    requires forall i :: 0 < i < |days| ==> yesterdays[i] == days[i - 1] && days[i] != days[i - 1]
    ensures StudyOnDays(s, days, yesterdays).currentStreak
         == |days| + (if s.lastStudyDate == yesterdays[0] then s.currentStreak else 0)
    ensures StudyOnDays(s, days, yesterdays).lastStudyDate == days[|days| - 1]
    ensures StudyOnDays(s, days, yesterdays).totalStudies == s.totalStudies
    decreases |days|
  {
    var t := StreakTransition(s, days[0], yesterdays[0]);
    if |days| > 1 {
      assert t.lastStudyDate == days[0] == yesterdays[1] && days[1] != days[0];
      ConsecutiveDaysStreak(t, days[1..], yesterdays[1..]);
    }
  }

  /** The store (`statsStore`) and the value under its storage key. */
  class StatsStore {
    var stats: StudyStats
    /** The stored copy; None while the key is absent. */
    var stored: Option<StudyStats>

    constructor(stored: Option<StudyStats>)
      ensures stats == INITIAL_STATS && this.stored == stored
    {
      stats := INITIAL_STATS;
      this.stored := stored;
    }

    /** `loadStats`: the stored value, or the defaults when the key is absent. */
    method LoadStats()
      modifies this
      ensures stats == old(stored).GetOr(INITIAL_STATS) && stored == old(stored)
    {
      stats := stored.GetOr(INITIAL_STATS);
    }

    /** `saveStats`: writes the current value under the storage key. */
    method SaveStats()
      modifies this
      ensures stored == Some(stats) && stats == old(stats)
    {
      stored := Some(stats);
    }

    /** `updateStreak(date)`, with the clock's today and yesterday as parameters. */
    method UpdateStreak(date: Option<string>, clockToday: string, yesterday: string)
      modifies this
      ensures stats == StreakTransition(old(stats), EffectiveToday(date, clockToday), yesterday)
      ensures stored == Some(stats)
    {
      var today := EffectiveToday(date, clockToday);
      stats := StreakTransition(stats, today, yesterday);
      SaveStats();
    }

    /** `incrementTotalStudies`: one more study, nothing else changes. */
    method IncrementTotalStudies()
      modifies this
      ensures stats == old(stats).(totalStudies := old(stats).totalStudies + 1)
      ensures stored == Some(stats)
    {
      stats := stats.(totalStudies := stats.totalStudies + 1);
      SaveStats();
    }

    /** `resetStats`: back to the initial value, with the storage key removed. */
    method ResetStats()
      modifies this
      ensures stats == INITIAL_STATS && stored == None
    {
      stats := INITIAL_STATS;
      stored := None;
    }
  }
}
