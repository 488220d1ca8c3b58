/** The wrapper around the FSRS library: rating and state mappings, the zero-valued
    card, one scheduling step with the app's own counters, and retrievability. */
module Scheduler {
  import opened Wrappers
  import opened Records
  import StudyQueue

  /** The FSRS library's review grades. */
  datatype Grade = Again | Hard | Good | Easy

  /** The FSRS library's card states, by their numeric enum values. */
  const FSRS_NEW: int := 0
  const FSRS_LEARNING: int := 1
  const FSRS_REVIEW: int := 2
  const FSRS_RELEARNING: int := 3

  /** A card as the FSRS library reads and returns it; `lastReview` None is `undefined`. */
  datatype FsrsCard = FsrsCard(
    due: int,
    stability: real,
    difficulty: real,
    elapsedDays: real,
    scheduledDays: real,
    learningSteps: int,
    reps: int,
    lapses: int,
    state: int,
    lastReview: Option<int>)

  /** The FSRS library as the scheduler uses it: `createEmptyCard(now)` and
      `fsrs.next(card, now, grade).card`. Both are foreign code, so they stay
      uninterpreted: every property below holds whatever these two functions do. */
  datatype Fsrs = Fsrs(emptyCard: int -> FsrsCard, next: (FsrsCard, int, Grade) -> FsrsCard)

  /** One of the four app states. */
  predicate IsAppState(s: string) {
    s == STATE_NEW || s == STATE_LEARNING || s == STATE_REVIEW || s == STATE_RELEARNING
  }

  /** `mapRating`: forgot is Again, perfect is Easy, remembered and any other value Good. */
  function MapRating(rating: string): (g: Grade)
    ensures g == Again <==> rating == FORGOT
    ensures g == Easy <==> rating == PERFECT
    ensures g == Good <==> rating != FORGOT && rating != PERFECT
    ensures g != Hard
  {
    match rating
    case "forgot" => Again
    case "remembered" => Good
    case "perfect" => Easy
    case _ => Good
  }

  /** `mapState`: FSRS state to app state; an unknown value becomes 'New'. */
  function MapState(state: int): (s: string)
    ensures IsAppState(s)
    ensures s == STATE_NEW <==> state == FSRS_NEW || !(FSRS_NEW <= state <= FSRS_RELEARNING)
    ensures s == STATE_LEARNING <==> state == FSRS_LEARNING
    ensures s == STATE_REVIEW <==> state == FSRS_REVIEW
    ensures s == STATE_RELEARNING <==> state == FSRS_RELEARNING
  {
    if state == FSRS_NEW then STATE_NEW
    else if state == FSRS_LEARNING then STATE_LEARNING
    else if state == FSRS_REVIEW then STATE_REVIEW
    else if state == FSRS_RELEARNING then STATE_RELEARNING
    else STATE_NEW
  }

  /** `mapStateToFSRS`: app state to FSRS state; an unknown value becomes New. The two
      mappings are inverse on the four states, in both directions. */
  function MapStateToFsrs(s: string): (state: int)
    ensures FSRS_NEW <= state <= FSRS_RELEARNING
    ensures state == FSRS_NEW <==> s == STATE_NEW || !IsAppState(s)
    ensures state == FSRS_LEARNING <==> s == STATE_LEARNING
    ensures state == FSRS_REVIEW <==> s == STATE_REVIEW
    ensures state == FSRS_RELEARNING <==> s == STATE_RELEARNING
    ensures IsAppState(s) ==> MapState(state) == s
  {
    match s
    case "New" => FSRS_NEW
    case "Learning" => FSRS_LEARNING
    case "Review" => FSRS_REVIEW
    case "Relearning" => FSRS_RELEARNING
    case _ => FSRS_NEW
  }

  /** The reverse round trip: every FSRS state survives a trip through the app state. */
  lemma StateRoundTrip(state: int)
    requires FSRS_NEW <= state <= FSRS_RELEARNING
    ensures MapStateToFsrs(MapState(state)) == state
  {
  }

  /** `createNewCard`: an unseen word at `now` (which stands for `Date.now()`). */
  function CreateNewCard(word: string, now: int): (p: WordProgress)
    ensures p.word == word && p.state == STATE_NEW && p.due == now && p.lastRating == REMEMBERED
    ensures p.stability == 0.0 && p.difficulty == 0.0 && p.retrievability == 0.0
    ensures p.elapsedDays == 0.0 && p.scheduledDays == 0.0
    ensures p.reps == 0 && p.lapses == 0 && p.lastReview == 0
    ensures p.correctCount == 0 && p.wrongCount == 0 && p.totalStudyTimeSec == 0.0
  {
    WordProgress(word, STATE_NEW, 0.0, 0.0, 0.0, 0.0, 0.0, 0, 0, 0, now, REMEMBERED, 0, 0, 0.0)
  }

  /** Whether `schedule` treats the prior progress as a fresh card. */
  predicate IsFresh(current: Option<WordProgress>) {
    current.None? || current.value.state == STATE_NEW
  }

  /** The card handed to the library for an existing word; a zero `lastReview` is falsy
      and becomes `undefined`. */
  function ToFsrsCard(p: WordProgress): (c: FsrsCard)
    ensures c.lastReview.None? <==> p.lastReview == 0
    ensures c.lastReview.Some? ==> c.lastReview.value == p.lastReview
    ensures c.learningSteps == 0 && c.state == MapStateToFsrs(p.state)
    ensures (c.due, c.stability, c.difficulty, c.elapsedDays, c.scheduledDays, c.reps, c.lapses)
         == (p.due, p.stability, p.difficulty, p.elapsedDays, p.scheduledDays, p.reps, p.lapses)
  {
    FsrsCard(p.due, p.stability, p.difficulty, p.elapsedDays, p.scheduledDays, 0,
             p.reps, p.lapses, MapStateToFsrs(p.state),
             if p.lastReview != 0 then Some(p.lastReview) else None)
  }

  /** The library's answer for this review: a fresh card is first created empty at `now`. */
  function FsrsStep(fsrs: Fsrs, current: Option<WordProgress>, rating: string, now: int): FsrsCard {
    if IsFresh(current) then fsrs.next(fsrs.emptyCard(now), now, MapRating(rating))
    else fsrs.next(ToFsrsCard(current.value), now, MapRating(rating))
  }

  /** `last_review?.getTime() || now`: a missing or zero review time falls back to `now`. */
  function ReviewTimeOr(lastReview: Option<int>, now: int): (t: int)
    ensures t == now || (lastReview == Some(t) && t != 0)
    ensures lastReview.Some? && lastReview.value != 0 ==> t == lastReview.value
  {
    if lastReview.Some? && lastReview.value != 0 then lastReview.value else now
  }

  /** 1 for a 'forgot' answer, else 0. */
  function WrongIncrement(rating: string): (n: int)
    ensures n == 0 || n == 1
    ensures n == 1 <==> rating == FORGOT
  {
    if rating == FORGOT then 1 else 0
  }

  /** `schedule`: one FSRS step plus the app's bookkeeping. The scheduling fields come
      from the library's result, the counters grow by one answer, and `elapsedDays`
      restarts at 0. A fresh card starts its counters from zero and uses `word`; an
      existing card keeps its own word and cached retrievability. */
  function Schedule(fsrs: Fsrs, word: string, current: Option<WordProgress>, rating: string,
                    timeSpentSec: real, now: int): (p: WordProgress)
    ensures p.elapsedDays == 0.0 && p.lastRating == rating
    ensures var c := FsrsStep(fsrs, current, rating, now);
      && p.state == MapState(c.state) && p.stability == c.stability && p.difficulty == c.difficulty
      && p.scheduledDays == c.scheduledDays && p.reps == c.reps && p.lapses == c.lapses
      && p.due == c.due && p.lastReview == ReviewTimeOr(c.lastReview, now)
    ensures IsFresh(current) ==>
      && p.word == word && p.retrievability == 0.0
      && 0 <= p.wrongCount <= 1
      && (p.wrongCount == 1 <==> rating == FORGOT) && p.correctCount == 1 - p.wrongCount
      && p.wrongCount + p.correctCount == 1
      && p.totalStudyTimeSec == timeSpentSec
    ensures !IsFresh(current) ==>
      && p.word == current.value.word && p.retrievability == current.value.retrievability
      && p.correctCount + p.wrongCount == current.value.correctCount + current.value.wrongCount + 1
      && (p.wrongCount == current.value.wrongCount + 1 <==> rating == FORGOT)
      && (p.correctCount == current.value.correctCount + 1 <==> rating != FORGOT)
      && p.totalStudyTimeSec == current.value.totalStudyTimeSec + timeSpentSec
  {
    var next := FsrsStep(fsrs, current, rating, now);
    var wrong := WrongIncrement(rating);
    if IsFresh(current) then
      WordProgress(word, MapState(next.state), next.stability, next.difficulty, 0.0, 0.0,
                   next.scheduledDays, next.reps, next.lapses, ReviewTimeOr(next.lastReview, now),
                   next.due, rating, 1 - wrong, wrong, timeSpentSec)
    else
      var c := current.value;
      c.(state := MapState(next.state), stability := next.stability, difficulty := next.difficulty,
         elapsedDays := 0.0, scheduledDays := next.scheduledDays, reps := next.reps,
         lapses := next.lapses, lastReview := ReviewTimeOr(next.lastReview, now), due := next.due,
         lastRating := rating, correctCount := c.correctCount + (1 - wrong),
         wrongCount := c.wrongCount + wrong,
         totalStudyTimeSec := c.totalStudyTimeSec + timeSpentSec)
  }

  /** A 'New' record is scheduled exactly like a missing one, whatever else it holds. */
  lemma NewProgressSchedulesAsUnseen(fsrs: Fsrs, word: string, p: WordProgress, rating: string,
                                     timeSpentSec: real, now: int)
    requires p.state == STATE_NEW
    ensures Schedule(fsrs, word, Some(p), rating, timeSpentSec, now)
         == Schedule(fsrs, word, None, rating, timeSpentSec, now)
  {
  }

  /** If the library counts every review in `reps` and starts empty cards at zero, the
      app's counters keep `correctCount + wrongCount == reps`. */
  lemma CountersTrackReps(fsrs: Fsrs, word: string, current: Option<WordProgress>, rating: string,
                          timeSpentSec: real, now: int)
    requires forall t :: fsrs.emptyCard(t).reps == 0
    requires forall c, t, g :: fsrs.next(c, t, g).reps == c.reps + 1
    requires current.Some? && !IsFresh(current)
             ==> current.value.correctCount + current.value.wrongCount == current.value.reps
    ensures var p := Schedule(fsrs, word, current, rating, timeSpentSec, now);
      p.correctCount + p.wrongCount == p.reps
  {
    var p := Schedule(fsrs, word, current, rating, timeSpentSec, now);
    if IsFresh(current) {
      assert fsrs.emptyCard(now).reps == 0;
      assert FsrsStep(fsrs, current, rating, now).reps == 1;
    } else {
      assert FsrsStep(fsrs, current, rating, now).reps == ToFsrsCard(current.value).reps + 1;
    }
  }

  /** `getRetrievability`: 0 for an unseen or zero-stability card, otherwise the power
      forgetting curve `(1 + t / (9 * stability))^-1` with `t` the days since the last
      review; `now` stands for the current time. The requires excludes only the
      single instant at which that base is 0 and the library would return Infinity. */
  function GetRetrievability(p: WordProgress, now: int): (r: real)
    requires p.state != STATE_NEW && p.stability != 0.0
             ==> 1.0 + DaysBetween(p.lastReview, now) / (9.0 * p.stability) != 0.0
    ensures p.state == STATE_NEW || p.stability == 0.0 ==> r == 0.0
    ensures p.state != STATE_NEW && p.stability > 0.0 && now >= p.lastReview ==> 0.0 < r <= 1.0
    ensures p.state != STATE_NEW && p.stability > 0.0 && now >= p.lastReview
            ==> r == 9.0 * p.stability / (9.0 * p.stability + DaysBetween(p.lastReview, now))
  {
    if p.state == STATE_NEW || p.stability == 0.0 then 0.0
    else
      var t := DaysBetween(p.lastReview, now);
      var base := 1.0 + t / (9.0 * p.stability);
      if p.stability > 0.0 && now >= p.lastReview then
        ReciprocalOfBase(p.stability, t);
        1.0 / base
      else
        1.0 / base
  }

  lemma ReciprocalOfBase(s: real, t: real)
    requires s > 0.0 && t >= 0.0
    ensures 1.0 + t / (9.0 * s) >= 1.0
    ensures 1.0 / (1.0 + t / (9.0 * s)) == 9.0 * s / (9.0 * s + t)
    ensures 0.0 < 1.0 / (1.0 + t / (9.0 * s)) <= 1.0
  {
    var q := t / (9.0 * s);
    assert q * (9.0 * s) == t;
    assert (1.0 + q) * (9.0 * s) == 9.0 * s + t;
  }

  /** Stability is the interval after which recall has decayed to 90%. */
  lemma RetrievabilityAtStability(p: WordProgress, now: int)
    requires p.state != STATE_NEW && p.stability > 0.0
    requires DaysBetween(p.lastReview, now) == p.stability
    ensures GetRetrievability(p, now) == 0.9
  {
    var s := p.stability;
    assert (now - p.lastReview) as real > 0.0;
    assert 9.0 * s / (9.0 * s + s) == 0.9 by {
      assert 9.0 * s + s == 10.0 * s;
      assert 0.9 * (10.0 * s) == 9.0 * s;
    }
  }

  /** A brand-new card is unseen everywhere: it has priority 100, retrievability 0, and
      scheduling it is scheduling a missing record. */
  lemma NewCardIsUnseen(fsrs: Fsrs, word: string, created: int, rating: string, timeSpentSec: real, now: int)
    ensures StudyQueue.CalculatePriorityScore(Some(CreateNewCard(word, created)), now) == 100.0
    ensures GetRetrievability(CreateNewCard(word, created), now) == 0.0
    ensures Schedule(fsrs, word, Some(CreateNewCard(word, created)), rating, timeSpentSec, now)
         == Schedule(fsrs, word, None, rating, timeSpentSec, now)
  {
  }
}
