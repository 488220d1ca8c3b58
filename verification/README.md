# English study app: verified model of the study loop and its stores

This project is a Dafny model of the logic behind a spaced-repetition English
vocabulary app. It covers:

- **The study queue.** Each word gets a priority score. Five-word study sets are
  built from the highest scores. Words are offered in set order, with forgotten
  words first. Answers are recorded until the set is complete.
- **The scheduler wrapper around FSRS.** This covers the rating and state
  mappings, the zero card, the bookkeeping around one scheduling step, and the
  retrievability curve.
- **The validator for imported word data.** It produces indexed error lists and
  the duplicate-word report.
- **The Svelte stores for statistics, sessions and progress.** These are
  modelled as classes whose fields are the store's state.
- **The localStorage tables for sessions, study logs and progress.** Each table
  is a class whose field holds the decoded stored value; `None` means the key is
  absent.

Dates and times are parameters: `now`, `today`, `yesterday` and the day
boundaries. So is the generated session id. The FSRS library is an
uninterpreted pair of functions, `Scheduler.Fsrs`. Scores and retrievability
are exact `real`s.

Modules, one per source file plus three shared ones:

| module | file |
|---|---|
| `Wrappers`, `Seqs`, `Records` | `Option`; sequence filters, flattening and distinctness; the shared record types and string constants |
| `StudyQueue` | `src/lib/services/studyQueue.js` |
| `Scheduler` | `src/lib/services/scheduler.js` |
| `Validator` | `src/lib/utils/validator.js` |
| `StatsStore` | `src/lib/stores/stats.js` |
| `SessionStore` | `src/lib/stores/session.js` |
| `ProgressStore` | `src/lib/stores/progress.js` |
| `SessionsStorage` | `src/lib/storage/sessions.js` |
| `LogsStorage` | `src/lib/storage/logs.js` |
| `ProgressStorage` | `src/lib/storage/progress.js` |

The model keeps the code's fallbacks and its scoring as written:

- An unrecognised rating is mapped to `Good`.
- An unrecognised state is mapped to `New`, in both directions.
- A record whose state is `'New'` is scheduled exactly like a missing record.
- An unseen word does not always outrank a reviewed one. Its score is 100, and
  an overdue forgotten word can score more. `StudyQueue.OverdueReviewedCanOutrankUnseen`
  exhibits such a word.

## Model

Two kinds of member have no row of their own. `Scheduler.FsrsStep` names the card that
`Schedule` hands to the scheduling library: an empty card at `now` for a fresh word,
otherwise `ToFsrsCard` of the record (src/lib/services/scheduler.js:119-120 and 157).
It is stated through `Schedule`'s contract. The constructors of `LogsStorage`,
`SessionsStorage` and `ProgressStorage` only give the content already stored under the key.

| member | source | states |
|---|---|---|
| Records.DaysBetween | src/lib/services/studyQueue.js:50 | days between two millisecond timestamps: the count times 86 400 000 is the elapsed milliseconds, so it is non-negative forward in time and exactly 1 for one day |
| Records.DaysBetweenAdditive | src/lib/services/studyQueue.js:50 | day counts add up: days from a to b plus days from b to c equal days from a to c |
| StudyQueue.LastRatingFactor | src/lib/services/studyQueue.js:42-47 | factor is 1.5 iff forgot, 1.2 iff remembered, 1.0 for perfect and every other string; always within [1, 1.5] |
| StudyQueue.OverdueRatio | src/lib/services/studyQueue.js:50-51 | ratio never below 1; ratio × max(1, scheduled days) is at least the elapsed days, and equals them whenever the ratio is above 1, so the ratio is max(1, elapsed / max(1, scheduled)) |
| StudyQueue.OverdueRatioGrows | src/lib/services/studyQueue.js:50-51 | for a fixed record the ratio never decreases as `now` advances |
| StudyQueue.CalculatePriorityScore | src/lib/services/studyQueue.js:32-54 | exactly 100 for no record or state 'New'; otherwise 50 × rating factor × overdue ratio, hence ≥ 50 × factor ≥ 50 |
| StudyQueue.RatingOrderAtEqualRatio | src/lib/services/studyQueue.js:39-53 | at an equal overdue ratio, forgot scores above remembered, which scores above perfect |
| StudyQueue.OverdueReviewedCanOutrankUnseen | src/lib/services/studyQueue.js:32-53 | some reviewed record scores above an unseen word |
| StudyQueue.ScoreWords | src/lib/services/studyQueue.js:71-74 | one entry per word, in order, each carrying that word's score |
| StudyQueue.Words | src/lib/services/studyQueue.js:80-82 | the word of every entry, in order |
| StudyQueue.SortByScore | src/lib/services/studyQueue.js:77 | the sort keeps length and is a permutation of its input |
| StudyQueue.SortIsSorted | src/lib/services/studyQueue.js:77 | the sort's output is in non-increasing score order |
| StudyQueue.SortKeepsWords | src/lib/services/studyQueue.js:77 | the sort permutes the words |
| StudyQueue.SortIsStable | src/lib/services/studyQueue.js:77 | for every score value, the entries with that score keep their input order |
| StudyQueue.InsertKeepsSorted | src/lib/services/studyQueue.js:77 | inserting into a sorted sequence keeps it sorted |
| StudyQueue.CreateSet | src/lib/services/studyQueue.js:67-89 | exactly min(5, number of words) words, each from the input (as a sub-multiset), nothing completed or forgotten; selection in non-increasing score order; every selected word scores at least as high as every unselected one |
| StudyQueue.SelectionFromInput | src/lib/services/studyQueue.js:80-82 | the first m sorted words form a sub-multiset of the word list |
| StudyQueue.SelectionInScoreOrder | src/lib/services/studyQueue.js:77-82 | the first m sorted words have non-increasing scores |
| StudyQueue.SelectionDominates | src/lib/services/studyQueue.js:71-82 | every selected word scores at least as high as every input word left out |
| StudyQueue.CreateSetKeepsTieOrder | src/lib/services/studyQueue.js:71-82 | for every score, the selected words with that score are a prefix of the input's words with that score (ties keep input order) |
| StudyQueue.CreateSetDistinct | src/lib/services/studyQueue.js:67-89 | a word list without repeats yields a set without repeats |
| StudyQueue.FirstOutstanding | src/lib/services/studyQueue.js:97-107 | the head of the filtered list is the first word of the set, in set order, not yet completed |
| StudyQueue.FirstOutstandingForgot | src/lib/services/studyQueue.js:102-104 | the head of the forgotten filter is the first outstanding forgotten word in set order |
| StudyQueue.GetNextWord | src/lib/services/studyQueue.js:96-108 | None iff every set word is completed; otherwise an outstanding set word: the first outstanding forgotten one if any exists, else the first outstanding one |
| StudyQueue.RecordAnswer | src/lib/services/studyQueue.js:117-133 | words unchanged; 'forgot' adds the word to the forgotten words only, any other rating to the completed words only |
| StudyQueue.CompletedBelowTotal | src/lib/services/studyQueue.js:140-142 | on a well-formed set the completed count is at most the set size, and equal iff every set word is completed |
| StudyQueue.IsSetComplete | src/lib/services/studyQueue.js:140-142 | on a well-formed set, complete iff GetNextWord offers nothing |
| StudyQueue.GetSetProgress | src/lib/services/studyQueue.js:149-154 | current is the number of completed words and total the set size; current never exceeds total on a well-formed set, and current == total iff the set is complete |
| StudyQueue.HasForgotten | src/lib/services/studyQueue.js:162-164 | while a forgotten word is outstanding, the next word offered is a forgotten one |
| StudyQueue.HasForgottenAfterAnswer | src/lib/services/studyQueue.js:117-164 | after an answer, a word counts as forgotten iff it did before or it is the answered word rated 'forgot' |
| StudyQueue.ForgottenWordComesBack | src/lib/services/studyQueue.js:101-133 | a word just answered 'forgot' is reported forgotten and is offered next when no other forgotten word is outstanding |
| StudyQueue.RememberedStep | src/lib/services/studyQueue.js:96-133 | on an incomplete well-formed set a word is offered, and answering it 'remembered' completes exactly one more word |
| StudyQueue.AnswerRememberedProgress | src/lib/services/studyQueue.js:96-133 | k such answers keep the words and well-formedness and complete exactly k more words |
| StudyQueue.RememberedRoundCompletes | src/lib/services/studyQueue.js:96-142 | for distinct words, answering every offered word 'remembered' completes the set after exactly as many answers as it has words, and not before |
| Scheduler.MapRating | src/lib/services/scheduler.js:24-35 | Again iff forgot, Easy iff perfect, Good for remembered and every other string; never Hard |
| Scheduler.MapState | src/lib/services/scheduler.js:43-56 | code 0 is 'New', 1 'Learning', 2 'Review', 3 'Relearning' (each an iff); an unknown code maps to 'New' |
| Scheduler.MapStateToFsrs | src/lib/services/scheduler.js:64-77 | 'New' and every unknown string give 0, 'Learning' 1, 'Review' 2, 'Relearning' 3 (each an iff); mapping back returns every app state unchanged |
| Scheduler.StateRoundTrip | src/lib/services/scheduler.js:43-77 | each of the four FSRS codes survives the round trip through the app state |
| Scheduler.CreateNewCard | src/lib/services/scheduler.js:84-103 | state 'New', every number 0, due = now, lastRating 'remembered' |
| Scheduler.ToFsrsCard | src/lib/services/scheduler.js:144-155 | the card handed to FSRS: fields copied, state mapped, learning steps 0, no last review iff lastReview is 0 |
| Scheduler.ReviewTimeOr | src/lib/services/scheduler.js:169 | the library's last-review time, or now when it has none or it is 0 |
| Scheduler.WrongIncrement | src/lib/services/scheduler.js:172-173 | 1 iff the rating is forgot, else 0 |
| Scheduler.Schedule | src/lib/services/scheduler.js:114-176 | elapsedDays 0 and lastRating = rating always; scheduling fields from the FSRS result; a fresh card gets word, retrievability 0, wrongCount 1 if forgot and 0 otherwise, correctCount = 1 − wrongCount, time = timeSpentSec; an existing card keeps word and retrievability, exactly one counter grows by 1 (wrongCount iff forgot) and the time adds up |
| Scheduler.NewProgressSchedulesAsUnseen | src/lib/services/scheduler.js:118 | a 'New' record is scheduled exactly as a missing one |
| Scheduler.CountersTrackReps | src/lib/services/scheduler.js:167-173 | when the library counts each review in reps, correctCount + wrongCount == reps is preserved |
| Scheduler.GetRetrievability | src/lib/services/scheduler.js:184-192 | 0 for 'New' or stability 0; for stability > 0 and now ≥ lastReview, within (0, 1] and equal to 9S/(9S + t) |
| Scheduler.ReciprocalOfBase | src/lib/services/scheduler.js:191 | (1 + t/(9S))^-1 equals 9S/(9S + t) and lies in (0, 1] |
| Scheduler.RetrievabilityAtStability | src/lib/services/scheduler.js:184-192 | retrievability is exactly 0.9 when the elapsed days equal the stability |
| Scheduler.NewCardIsUnseen | src/lib/services/scheduler.js:84-103 | a freshly created card scores 100, has retrievability 0 and is scheduled like no record at all |
| Validator.Prop | src/lib/utils/validator.js:48 | a property is read only from an object that has it; arrays have none of the named keys |
| Validator.RequiredError | src/lib/utils/validator.js:51-66 | no error iff the field is a non-empty string; otherwise one error naming that field at the entry's index |
| Validator.FieldTypeError | src/lib/utils/validator.js:81-88 | no error iff the field is absent or a string (so null is an error); at most one error, naming the field |
| Validator.FieldTypeErrorsEmpty | src/lib/utils/validator.js:69-89 | no optional-field errors iff every listed field is absent or a string |
| Validator.NatToString | src/lib/utils/validator.js:104 | the index in `derivatives[i]` as JavaScript prints it: decimal digits only, no leading zero, reading back as i |
| Validator.DerivativeError | src/lib/utils/validator.js:100-117 | no error iff the element is an object with a non-empty string word; at most one error, named `derivatives[k]` iff the element is not an object and `derivatives[k].word` iff it is |
| Validator.DerivativeErrorsEmpty | src/lib/utils/validator.js:100-118 | no element errors iff every element is an object with a non-empty string word |
| Validator.DerivativesErrors | src/lib/utils/validator.js:92-120 | no error when absent; exactly one 'derivatives' error when present and not an array |
| Validator.DerivativesErrorsEmpty | src/lib/utils/validator.js:92-120 | no derivatives errors iff the field is absent or an array of valid elements |
| Validator.EntryErrors | src/lib/utils/validator.js:39-120 | every error carries the entry's index; a null or non-object entry yields exactly one 'word' error and nothing else |
| Validator.EntryErrorsEmpty | src/lib/utils/validator.js:39-120 | an entry has no errors iff it satisfies the reference predicate EntryValid |
| Validator.EntryErrorLists | src/lib/utils/validator.js:38-121 | one error list per entry, the list of entry i being that entry's errors |
| Validator.Validate | src/lib/utils/validator.js:25-127 | valid iff the error list is empty; a non-array yields exactly the one root error (index −1, field 'root') |
| Validator.ValidateWords | src/lib/utils/validator.js:25-127 | the loop over entries returns exactly Validate's result |
| Validator.CheckEntry | src/lib/utils/validator.js:39-120 | the errors appended for one entry are exactly EntryErrors |
| Validator.CheckFieldTypes | src/lib/utils/validator.js:81-89 | the optional-field loop, run over the list of optional string fields, appends exactly FieldTypeErrors of that list, in field order |
| Validator.CheckDerivatives | src/lib/utils/validator.js:100-118 | the derivatives loop appends exactly the element errors, in element order |
| Validator.ValidIffEveryEntryValid | src/lib/utils/validator.js:25-127 | valid iff the input is an array and every entry satisfies EntryValid |
| Validator.ErrorsInEntryOrder | src/lib/utils/validator.js:38-121 | for an array, every error index lies in [0, n) and the indices never decrease along the list |
| Validator.ErrorsOfEntry | src/lib/utils/validator.js:38-121 | the errors with index k are exactly entry k's errors, in order |
| Validator.CheckDuplicates | src/lib/utils/validator.js:134-151 | the seen-set loop returns exactly Duplicates (each repeated word once, in order of its second occurrence) |
| Validator.DuplicatesExact | src/lib/utils/validator.js:134-151 | a word is reported iff it occurs at least twice, and no word is reported twice |
| Validator.DuplicatesSnoc | src/lib/utils/validator.js:140-148 | appending a word extends the report by that word exactly when this is its second occurrence, so words are reported in order of second occurrence |
| Validator.NoDuplicatesIffDistinct | src/lib/utils/validator.js:134-151 | no duplicates reported iff all words are distinct |
| StatsStore.EffectiveToday | src/lib/stores/stats.js:75 | the given date unless it is missing or empty, else the clock's today |
| StatsStore.StreakTransition | src/lib/stores/stats.js:78-99 | same day: unchanged; otherwise lastStudyDate = today, totals kept, streak old + 1 after yesterday else 1, longest = max(old longest, new streak) so it never decreases |
| StatsStore.StreakIdempotent | src/lib/stores/stats.js:80-82 | updating twice on the same date equals updating once |
| StatsStore.LongestCoversCurrent | src/lib/stores/stats.js:91 | longestStreak ≥ currentStreak is preserved |
| StatsStore.ConsecutiveDaysStreak | src/lib/stores/stats.js:78-99 | studying on n consecutive days yields streak n (plus the old streak if it was alive yesterday), last date the final day, totals unchanged |
| StatsStore.StatsStore.constructor | src/lib/stores/stats.js:14-19 | the store starts at zero streaks, zero studies and an empty last date, beside the given stored value |
| StatsStore.StatsStore.LoadStats | src/lib/stores/stats.js:48-51 | stats become the stored value, or the initial stats when nothing is stored |
| StatsStore.StatsStore.SaveStats | src/lib/stores/stats.js:56-68 | the stored value becomes the current stats |
| StatsStore.StatsStore.UpdateStreak | src/lib/stores/stats.js:74-102 | stats become the streak transition for the effective today, and are saved |
| StatsStore.StatsStore.IncrementTotalStudies | src/lib/stores/stats.js:107-113 | totalStudies grows by 1, nothing else changes, and the result is saved |
| StatsStore.StatsStore.ResetStats | src/lib/stores/stats.js:118-126 | stats back to zeros and '', storage key removed |
| SessionsStorage.Merge | src/lib/storage/sessions.js:52 | every field given in the update overrides, every other field is kept |
| SessionsStorage.MergeLaws | src/lib/storage/sessions.js:52 | merging the empty update changes nothing; merging the same update twice equals merging it once |
| SessionsStorage.IndexOfId | src/lib/storage/sessions.js:50 | the first position with the id; None iff no session has it |
| SessionsStorage.IndexOfAppended | src/lib/storage/sessions.js:50 | a session appended with a new id is found at the end |
| SessionsStorage.UpdateById | src/lib/storage/sessions.js:48-55 | length kept; unknown id: list unchanged; otherwise the first match is merged and every other session is unchanged |
| SessionsStorage.FirstActive | src/lib/storage/sessions.js:61-64 | the first session whose endAt is null; None iff every session has ended |
| SessionsStorage.SessionsStorage.Load | src/lib/storage/sessions.js:12-15 | the stored list, or the empty list when nothing is stored |
| SessionsStorage.SessionsStorage.Save | src/lib/storage/sessions.js:22-31 | the stored value becomes Some(sessions) |
| SessionsStorage.SessionsStorage.Add | src/lib/storage/sessions.js:37-41 | the loaded list becomes the old one with the session appended |
| SessionsStorage.SessionsStorage.AfterUpdate | src/lib/storage/sessions.js:48-55 | the stored value after an update: unchanged for an unknown id, else the merged list |
| SessionsStorage.SessionsStorage.Update | src/lib/storage/sessions.js:48-55 | the stored value becomes AfterUpdate of the old state |
| SessionsStorage.SessionsStorage.GetActive | src/lib/storage/sessions.js:61-64 | the first active session of the loaded list |
| SessionsStorage.SessionsStorage.Clear | src/lib/storage/sessions.js:69-71 | key removed; loading yields the empty list |
| SessionStore.ElapsedSeconds | src/lib/stores/session.js:73 | whole seconds elapsed, rounded down: secs × 1000 ≤ now − start < secs × 1000 + 1000 |
| SessionStore.NewSession | src/lib/stores/session.js:49-55 | the given id, start now, no end, zero time and count |
| SessionStore.EndUpdateMirrors | src/lib/stores/session.js:72-85 | merging the stored end update gives the same session as the store's ended session |
| SessionStore.CountUpdateMirrors | src/lib/stores/session.js:101-109 | merging the stored count update gives the same session as the store's incremented session |
| SessionStore.SessionStore.constructor | src/lib/stores/session.js:22-25 | the store starts with no current session and inactive |
| SessionStore.SessionStore.ActiveTime | src/lib/stores/session.js:30-33 | 0 when inactive or without a session; otherwise the elapsed whole seconds since start |
| SessionStore.SessionStore.StartSession | src/lib/stores/session.js:46-63 | the new session becomes current and active and is appended to storage; with a fresh id the stored copy mirrors it |
| SessionStore.SessionStore.EndSession | src/lib/stores/session.js:68-92 | no session: nothing changes; otherwise endAt = now, totalActiveSec = elapsed seconds (the active time), inactive, the same update written to storage, mirroring kept |
| SessionStore.SessionStore.IncrementStudyCount | src/lib/stores/session.js:97-116 | no session: nothing changes; otherwise studyCount + 1, isActive kept, the same count written to storage, mirroring kept |
| SessionStore.SessionStore.RestoreSession | src/lib/stores/session.js:121-129 | the stored active session becomes current and active; without one, nothing changes |
| SessionStore.SessionStore.ResetSession | src/lib/stores/session.js:134-139 | no current session, inactive |
| LogsStorage.LogsBetween | src/lib/storage/logs.js:65-70 | exactly the logs with start ≤ timestamp ≤ end, both bounds inclusive |
| LogsStorage.LogsOfWord | src/lib/storage/logs.js:77-80 | exactly the logs for that word |
| LogsStorage.RangeAfterAppend | src/lib/storage/logs.js:65-70 | after an append the range filter is the old result plus the new log if it is in range, so stored order is kept |
| LogsStorage.WordAfterAppend | src/lib/storage/logs.js:77-80 | after an append the word filter is the old result plus the new log if it has that word |
| LogsStorage.LogsStorage.Load | src/lib/storage/logs.js:28-31 | the stored list, or the empty list when nothing is stored |
| LogsStorage.LogsStorage.Save | src/lib/storage/logs.js:38-47 | the stored value becomes Some(logs) |
| LogsStorage.LogsStorage.Add | src/lib/storage/logs.js:53-57 | the loaded list becomes the old one with the log appended |
| LogsStorage.LogsStorage.FilterByDate | src/lib/storage/logs.js:65-70 | the inclusive range filter over the loaded logs |
| LogsStorage.LogsStorage.GetByWord | src/lib/storage/logs.js:77-80 | the word filter over the loaded logs |
| LogsStorage.LogsStorage.GetTodayLogs | src/lib/storage/logs.js:86-91 | the inclusive range filter with the given day start and end |
| LogsStorage.LogsStorage.Clear | src/lib/storage/logs.js:96-98 | key removed; loading yields the empty list |
| ProgressStorage.Lookup | src/lib/storage/progress.js:39-42 | the record for a present key, None for an absent one |
| ProgressStorage.LookupAfterUpdate | src/lib/storage/progress.js:49-53 | after binding a word, its lookup is the new record and every other lookup is unchanged |
| ProgressStorage.ProgressStorage.Load | src/lib/storage/progress.js:13-16 | the stored map, or the empty map when nothing is stored |
| ProgressStorage.ProgressStorage.Save | src/lib/storage/progress.js:23-32 | the stored value becomes Some(progress) |
| ProgressStorage.ProgressStorage.Get | src/lib/storage/progress.js:39-42 | the lookup in the loaded map |
| ProgressStorage.ProgressStorage.Update | src/lib/storage/progress.js:49-53 | the stored map becomes the old one with word bound to the record; that word reads back the record, every other word reads as before |
| ProgressStorage.ProgressStorage.Clear | src/lib/storage/progress.js:58-60 | key removed; loading yields the empty map |
| ProgressStore.Learned | src/lib/stores/progress.js:41 | exactly the words whose record's state is not 'New' |
| ProgressStore.LearnedWordCount | src/lib/stores/progress.js:40-42 | at most the number of records, and 0 iff every record is 'New' |
| ProgressStore.LearnedAfterUpdate | src/lib/stores/progress.js:40-42 | an update changes the learned count by exactly the change of that one record |
| ProgressStore.TotalReps | src/lib/stores/progress.js:47-49 | the sum of reps over all records; non-negative when every reps is |
| ProgressStore.TotalRepsRemove | src/lib/stores/progress.js:47-49 | the sum is any one record's reps plus the sum over the others, whichever key is taken |
| ProgressStore.TotalRepsAfterUpdate | src/lib/stores/progress.js:47-49 | an update moves the total by the new record's reps minus the old one's |
| ProgressStore.ProgressStore.constructor | src/lib/stores/progress.js:35 | the store starts with the empty map |
| ProgressStore.ProgressStore.LoadProgress | src/lib/stores/progress.js:54-57 | the map becomes the loaded map |
| ProgressStore.ProgressStore.SaveProgress | src/lib/stores/progress.js:62-65 | the stored map becomes the current map |
| ProgressStore.ProgressStore.UpdateProgress | src/lib/stores/progress.js:72-79 | the word is bound to the record, every other key kept, and the whole map saved |
| ProgressStore.ProgressStore.GetProgress | src/lib/stores/progress.js:86-89 | the record for a present word, None (null) otherwise |
| ProgressStore.ProgressStore.ResetProgress | src/lib/stores/progress.js:94-97 | the map empty and the key removed, so both derived counts are 0 |

## Left out

- FSRS internals (`createEmptyCard`, `fsrs.next` from the ts-fsrs library) are foreign code. `Scheduler.Fsrs` is an uninterpreted pair of functions, and no interval ordering is claimed for them.
- Floating point is not modelled. Scores and retrievability are exact reals, so IEEE rounding, NaN and Infinity are out of scope.
- Scheduler.GetRetrievability: its requires excludes the single instant at which the curve's base is 0. There the library would divide by zero and return Infinity.
- The clock and calendar are not modelled. `Date.now()`, `new Date()` and the JST date strings of `src/lib/stores/stats.js:25-43` and `src/lib/utils/date.js` become parameters (`now`, `today`, `yesterday`, the day start and end). The conversion from milliseconds to days is a plain division.
- The random session id (`src/lib/stores/session.js:39-41`) is a parameter of `StartSession`.
- Svelte reactivity is not modelled. `writable`, `derived` and `subscribe` become class fields and functions over them, and the derived counts are functions of the current map.
- localStorage is a field holding the decoded value, with `None` for an absent key. JSON encoding and decoding, the empty-string check before parsing, and quota errors (`StorageQuotaExceededError`) are not modelled.
- `src/lib/storage/stats.js` is not part of this model beyond its load, save and clear, which `StatsStore.stored` stands for.
- `src/lib/storage/index.js` (usage, export, import, clear all) is not part of this model.
- `src/lib/stores/words.js` (fetching word files) is not part of this model.
- `src/lib/services/speech.js` (the Web Speech API) is not part of this model.
- Inherited `Object.prototype` keys are not modelled. A rating or word such as `'constructor'` reads an inherited property in JavaScript; the model treats such keys like any other string.
- StudyQueue.CreateSet: the in-place `Array.prototype.sort` is the engine's stable sort, not an algorithm of this code. It is modelled as a functional stable sort, `SortByScore`, so sorting in place is not captured.
- StudyQueue.RecordAnswer: it copies both sets before adding to them, so callers only ever see a new value. It is modelled as a function returning that value.
- ProgressStore.TotalReps: it is a ghost sum over the map's keys, taken in no particular order. `reduce` sums in insertion order, which is the same value for exact integers.
- Validator.Validate: a JSON array is an object whose named properties (`word`, `meaning` and the rest) are all undefined. Sparse arrays and non-JSON values such as functions and `undefined` elements are not modelled.
- Validator.CheckDuplicates: it takes the sequence of `word` fields rather than the word records.
- LogsStorage.LogsBetween: the ensures give membership and a length bound. That the filter keeps stored order is shown by `RangeAfterAppend` and by the definition of `Seqs.Filter`, not by one ensures.
- LogsStorage.LogsOfWord: order is kept in the same way as for `LogsBetween`, through `WordAfterAppend`.
