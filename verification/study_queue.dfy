/** The study queue: priority scores, building a set of five words from the top scores,
    and the in-set state machine that re-presents forgotten words first. */
module StudyQueue {
  import opened Wrappers
  import opened Records
  import Seqs

  /** Number of words in one study set. */
  const SET_SIZE: nat := 5

  function Min(a: nat, b: nat): nat { if a <= b then a else b }

  function MaxReal(a: real, b: real): real { if a >= b then a else b }

  // ---------------------------------------------------------------------------
  // Priority score

  /** Weight of the last rating: forgot 1.5, remembered 1.2, perfect 1.0, and the
      fallback 1.0 for any other string. */
  function LastRatingFactor(lastRating: string): (f: real)
    ensures 1.0 <= f <= 1.5
    ensures f == 1.5 <==> lastRating == FORGOT
    ensures f == 1.2 <==> lastRating == REMEMBERED
    ensures f == 1.0 <==> lastRating != FORGOT && lastRating != REMEMBERED
  {
    if lastRating == FORGOT then 1.5
    else if lastRating == REMEMBERED then 1.2
    else 1.0  // 'perfect', and the `|| 1.0` fallback
  }

  /** How overdue a reviewed word is: elapsed days over scheduled days (the latter at
      least 1), never below 1. */
  function OverdueRatio(p: WordProgress, now: int): (ratio: real)
    ensures ratio >= 1.0
    ensures p.scheduledDays <= 1.0 && now >= p.lastReview
            ==> ratio == MaxReal(1.0, DaysBetween(p.lastReview, now))
    ensures ratio * MaxReal(1.0, p.scheduledDays) >= DaysBetween(p.lastReview, now)
    ensures ratio > 1.0 ==> ratio * MaxReal(1.0, p.scheduledDays) == DaysBetween(p.lastReview, now)
  {
    MaxReal(1.0, DaysBetween(p.lastReview, now) / MaxReal(1.0, p.scheduledDays))
  }

  /** The longer a reviewed word waits, the more overdue it is. */
  lemma OverdueRatioGrows(p: WordProgress, n1: int, n2: int)
    requires n1 <= n2
    ensures OverdueRatio(p, n1) <= OverdueRatio(p, n2)
  {
    var s := MaxReal(1.0, p.scheduledDays);
    assert DaysBetween(p.lastReview, n1) <= DaysBetween(p.lastReview, n2);
    assert DaysBetween(p.lastReview, n1) / s <= DaysBetween(p.lastReview, n2) / s;
  }

  /** `calculatePriorityScore`: 100 for an unseen word, otherwise
      50 * rating factor * overdue ratio. `now` stands for `Date.now()`. */
  function CalculatePriorityScore(progress: Option<WordProgress>, now: int): (score: real)
    ensures progress.None? || progress.value.state == STATE_NEW ==> score == 100.0
    ensures progress.Some? && progress.value.state != STATE_NEW
            ==> score >= 50.0 * LastRatingFactor(progress.value.lastRating) >= 50.0
    ensures progress.Some? && progress.value.state != STATE_NEW
            ==> score == 50.0 * LastRatingFactor(progress.value.lastRating) * OverdueRatio(progress.value, now)
  {
    if progress.None? || progress.value.state == STATE_NEW then 100.0
    else
      var factor := LastRatingFactor(progress.value.lastRating);
      var ratio := OverdueRatio(progress.value, now);
      assert 50.0 * factor * ratio - 50.0 * factor == 50.0 * factor * (ratio - 1.0);
      50.0 * factor * ratio
  }

  /** At the same overdue ratio a forgotten word outranks a remembered one, which
      outranks a perfect one. */
  lemma RatingOrderAtEqualRatio(f: WordProgress, r: WordProgress, p: WordProgress, now: int)
    requires f.state != STATE_NEW && r.state != STATE_NEW && p.state != STATE_NEW
    requires f.lastRating == FORGOT && r.lastRating == REMEMBERED && p.lastRating == PERFECT
    requires OverdueRatio(f, now) == OverdueRatio(r, now) == OverdueRatio(p, now)
    ensures CalculatePriorityScore(Some(f), now) > CalculatePriorityScore(Some(r), now)
            > CalculatePriorityScore(Some(p), now)
  {
    var x := OverdueRatio(f, now);
    assert 50.0 * 1.5 * x - 50.0 * 1.2 * x == 15.0 * x;
    assert 50.0 * 1.2 * x - 50.0 * 1.0 * x == 10.0 * x;
  }

  /** An unseen word does not always outrank a reviewed one: a word forgotten three
      days ago and scheduled for one day scores 225. */
  lemma OverdueReviewedCanOutrankUnseen()
    ensures exists p: WordProgress, now: int ::
      p.state != STATE_NEW && CalculatePriorityScore(Some(p), now) > CalculatePriorityScore(None, now)
  {
    var p := WordProgress("w", STATE_REVIEW, 1.0, 5.0, 0.0, 0.0, 1.0, 1, 1, 0, 0, FORGOT, 0, 1, 0.0);
    var now := 3 * MS_PER_DAY;
    assert DaysBetween(p.lastReview, now) == 3.0;
    assert OverdueRatio(p, now) == 3.0;
    assert CalculatePriorityScore(Some(p), now) == 225.0;
    assert p.state != STATE_NEW && CalculatePriorityScore(Some(p), now) > CalculatePriorityScore(None, now);
  }

  // ---------------------------------------------------------------------------
  // Scoring and the stable descending sort used by createSet

  datatype ScoredWord = ScoredWord(word: string, score: real)

  /** Score of a word: `calculatePriorityScore(progressMap[word] || null)`. */
  function WordScore(progressMap: map<string, WordProgress>, now: int, word: string): real {
    CalculatePriorityScore(if word in progressMap then Some(progressMap[word]) else None, now)
  }

  /** `wordList.map(word => ({ word, score }))`. */
  function ScoreWords(wordList: seq<string>, progressMap: map<string, WordProgress>, now: int)
    : (r: seq<ScoredWord>)
    ensures |r| == |wordList|
    ensures forall k :: 0 <= k < |r| ==>
      r[k] == ScoredWord(wordList[k], WordScore(progressMap, now, wordList[k]))
  {
    if wordList == [] then []
    else [ScoredWord(wordList[0], WordScore(progressMap, now, wordList[0]))]
         + ScoreWords(wordList[1..], progressMap, now)
  }

  /** `items.map(item => item.word)`. */
  function Words(s: seq<ScoredWord>): (r: seq<string>)
    ensures |r| == |s|
    ensures forall k :: 0 <= k < |s| ==> r[k] == s[k].word
  {
    if s == [] then [] else [s[0].word] + Words(s[1..])
  }

  lemma {:induction false} WordsConcat(a: seq<ScoredWord>, b: seq<ScoredWord>)
    ensures Words(a + b) == Words(a) + Words(b)
  {
    if a == [] {
      assert a + b == b;
    } else {
      assert (a + b)[1..] == a[1..] + b;
      WordsConcat(a[1..], b);
    }
  }

  /** The words of a prefix are the prefix of the words. */
  lemma WordsPrefix(s: seq<ScoredWord>, m: nat)
    requires m <= |s|
    ensures Words(s[..m]) == Words(s)[..m]
  {
  }

  /** Non-increasing by score: the order of the comparator `b.score - a.score`. */
  ghost predicate SortedByScore(s: seq<ScoredWord>) {
    forall i, j :: 0 <= i < j < |s| ==> s[i].score >= s[j].score
  }

  /** Insert `x` in front of the first element whose score is at most its own. */
  function InsertByScore(x: ScoredWord, t: seq<ScoredWord>): (r: seq<ScoredWord>)
    ensures |r| == |t| + 1
    ensures multiset(r) == multiset(t) + multiset{x}
  {
    if t == [] || t[0].score <= x.score then
      [x] + t
    else
      assert t == [t[0]] + t[1..];
      [t[0]] + InsertByScore(x, t[1..])
  }

  /** Inserting below a bound keeps every score below it. */
  lemma {:induction false} InsertBelow(x: ScoredWord, t: seq<ScoredWord>, bound: real)
    requires x.score <= bound
    requires forall k :: 0 <= k < |t| ==> t[k].score <= bound
    ensures forall k :: 0 <= k < |InsertByScore(x, t)| ==> InsertByScore(x, t)[k].score <= bound
  {
    if t == [] || t[0].score <= x.score {
      var r := [x] + t;
      forall k | 0 <= k < |r| ensures r[k].score <= bound {
        if k > 0 { assert r[k] == t[k - 1]; }
      }
    } else {
      var rest := InsertByScore(x, t[1..]);
      InsertBelow(x, t[1..], bound);
      var r := [t[0]] + rest;
      forall k | 0 <= k < |r| ensures r[k].score <= bound {
        if k > 0 { assert r[k] == rest[k - 1]; }
      }
    }
  }

  /** A sequence in front of which stands an element at least as large as all of it. */
  lemma ConsKeepsSorted(h: ScoredWord, t: seq<ScoredWord>)
    requires SortedByScore(t)
    requires forall k :: 0 <= k < |t| ==> t[k].score <= h.score
    ensures SortedByScore([h] + t)
  {
    var r := [h] + t;
    forall i, j | 0 <= i < j < |r| ensures r[i].score >= r[j].score {
      assert r[j] == t[j - 1];
      if i > 0 { assert r[i] == t[i - 1]; }
    }
  }

  lemma {:induction false} InsertKeepsSorted(x: ScoredWord, t: seq<ScoredWord>)
    requires SortedByScore(t)
    ensures SortedByScore(InsertByScore(x, t))
  {
    if t == [] || t[0].score <= x.score {
      forall k | 0 <= k < |t| ensures t[k].score <= x.score {
        assert t[0].score >= t[k].score;
      }
      ConsKeepsSorted(x, t);
    } else {
      var rest := InsertByScore(x, t[1..]);
      assert SortedByScore(t[1..]);
      InsertKeepsSorted(x, t[1..]);
      forall k | 0 <= k < |t[1..]| ensures t[1..][k].score <= t[0].score {
        assert t[1..][k] == t[k + 1];
      }
      InsertBelow(x, t[1..], t[0].score);
      ConsKeepsSorted(t[0], rest);
    }
  }

  lemma {:induction false} InsertWords(x: ScoredWord, t: seq<ScoredWord>)
    ensures multiset(Words(InsertByScore(x, t))) == multiset(Words(t)) + multiset{x.word}
  {
    if t == [] || t[0].score <= x.score {
      assert ([x] + t)[1..] == t;
    } else {
      var rest := InsertByScore(x, t[1..]);
      InsertWords(x, t[1..]);
      assert ([t[0]] + rest)[1..] == rest;
      assert Words(t) == [t[0].word] + Words(t[1..]);
    }
  }

  /** The stable sort `scoredWords.sort((a, b) => b.score - a.score)`: an insertion sort
      in which an element goes in front of every later element of equal score. */
  function SortByScore(s: seq<ScoredWord>): (r: seq<ScoredWord>)
    ensures |r| == |s|
    ensures multiset(r) == multiset(s)
  {
    if s == [] then []
    else
      assert s == [s[0]] + s[1..];
      InsertByScore(s[0], SortByScore(s[1..]))
  }

  /** The sort orders by non-increasing score. */
  lemma {:induction false} SortIsSorted(s: seq<ScoredWord>)
    ensures SortedByScore(SortByScore(s))
  {
    if s != [] {
      SortIsSorted(s[1..]);
      InsertKeepsSorted(s[0], SortByScore(s[1..]));
    }
  }

  /** The sort permutes the words as well as the scored entries. */
  lemma {:induction false} SortKeepsWords(s: seq<ScoredWord>)
    ensures multiset(Words(SortByScore(s))) == multiset(Words(s))
  {
    if s != [] {
      SortKeepsWords(s[1..]);
      InsertWords(s[0], SortByScore(s[1..]));
      assert Words(s) == [s[0].word] + Words(s[1..]);
    }
  }

  /** The scored words whose score is exactly `v`, in order. */
  function WithScore(s: seq<ScoredWord>, v: real): seq<ScoredWord> {
    if s == [] then [] else (if s[0].score == v then [s[0]] else []) + WithScore(s[1..], v)
  }

  lemma {:induction false} WithScoreConcat(a: seq<ScoredWord>, b: seq<ScoredWord>, v: real)
    ensures WithScore(a + b, v) == WithScore(a, v) + WithScore(b, v)
  {
    if a == [] {
      assert a + b == b;
    } else {
      var head := if a[0].score == v then [a[0]] else [];
      assert (a + b)[0] == a[0];
      assert (a + b)[1..] == a[1..] + b;
      assert WithScore(a + b, v) == head + WithScore(a[1..] + b, v);
      WithScoreConcat(a[1..], b, v);
    }
  }

  lemma {:induction false} InsertKeepsTies(x: ScoredWord, t: seq<ScoredWord>, v: real)
    ensures WithScore(InsertByScore(x, t), v) == (if x.score == v then [x] else []) + WithScore(t, v)
  {
    if t == [] || t[0].score <= x.score {
      assert ([x] + t)[1..] == t;
    } else {
      var rest := InsertByScore(x, t[1..]);
      assert ([t[0]] + rest)[1..] == rest;
      InsertKeepsTies(x, t[1..], v);
    }
  }

  /** The sort is stable: for every score, the words with that score keep their input order. */
  lemma {:induction false} SortIsStable(s: seq<ScoredWord>, v: real)
    ensures WithScore(SortByScore(s), v) == WithScore(s, v)
  {
    if s != [] {
      SortIsStable(s[1..], v);
      InsertKeepsTies(s[0], SortByScore(s[1..]), v);
    }
  }

  // ---------------------------------------------------------------------------
  // Study sets

  /** A study set: the chosen words, and the words answered remembered/perfect or forgot. */
  datatype StudySet = StudySet(words: seq<string>, completedWords: set<string>, forgotWords: set<string>)

  /** `{ current, total }` returned by getSetProgress. */
  datatype SetProgress = SetProgress(current: nat, total: nat)

  /** Every scored word carries the score of its own word. */
  ghost predicate ScoresMatch(s: seq<ScoredWord>, progressMap: map<string, WordProgress>, now: int) {
    forall k :: 0 <= k < |s| ==> s[k].score == WordScore(progressMap, now, s[k].word)
  }

  lemma SortedScoresMatch(wordList: seq<string>, progressMap: map<string, WordProgress>, now: int)
    ensures ScoresMatch(SortByScore(ScoreWords(wordList, progressMap, now)), progressMap, now)
  {
    var scored := ScoreWords(wordList, progressMap, now);
    var sorted := SortByScore(scored);
    forall k | 0 <= k < |sorted|
      ensures sorted[k].score == WordScore(progressMap, now, sorted[k].word)
    {
      assert sorted[k] in multiset(scored);
      var j :| 0 <= j < |scored| && scored[j] == sorted[k];
    }
  }

  lemma {:induction false} WordsOfScoreWords(wordList: seq<string>, progressMap: map<string, WordProgress>, now: int)
    ensures Words(ScoreWords(wordList, progressMap, now)) == wordList
  {
  }

  /** `createSet`: score every word, sort by descending score (stably), keep the first
      `min(SET_SIZE, |wordList|)` words, start with nothing completed or forgotten.
      `wordList` is `words.map(w => w.word)`; `now` stands for `Date.now()`. */
  function CreateSet(wordList: seq<string>, progressMap: map<string, WordProgress>, now: int)
    : (r: StudySet)
    ensures |r.words| == Min(SET_SIZE, |wordList|)
    ensures r.completedWords == {} && r.forgotWords == {}
    ensures multiset(r.words) <= multiset(wordList)
    ensures forall i, j :: 0 <= i < j < |r.words| ==>
      WordScore(progressMap, now, r.words[i]) >= WordScore(progressMap, now, r.words[j])
    ensures forall w, x :: w in wordList && w !in r.words && x in r.words ==>
      WordScore(progressMap, now, x) >= WordScore(progressMap, now, w)
  {
    var scoredWords := SortByScore(ScoreWords(wordList, progressMap, now));
    var m := Min(SET_SIZE, |scoredWords|);
    SelectionFromInput(wordList, progressMap, now, m);
    SelectionInScoreOrder(wordList, progressMap, now, m);
    SelectionDominates(wordList, progressMap, now, m);
    StudySet(Words(scoredWords[..m]), {}, {})
  }

  lemma SelectionFromInput(wordList: seq<string>, progressMap: map<string, WordProgress>, now: int, m: nat)
    requires m <= |wordList|
    ensures multiset(Words(SortByScore(ScoreWords(wordList, progressMap, now))[..m])) <= multiset(wordList)
  {
    var scored := ScoreWords(wordList, progressMap, now);
    var sorted := SortByScore(scored);
    SortKeepsWords(scored);
    WordsOfScoreWords(wordList, progressMap, now);
    WordsPrefix(sorted, m);
    PrefixMultiset(Words(sorted), m);
  }

  lemma PrefixMultiset(ws: seq<string>, m: nat)
    requires m <= |ws|
    ensures multiset(ws[..m]) <= multiset(ws)
  {
    assert ws == ws[..m] + ws[m..];
  }

  /** A word of a prefix sits at a position inside it; a word of the sequence that is
      not in the prefix sits at a position after it. */
  lemma PrefixPositions(ws: seq<string>, m: nat, x: string, w: string)
    requires m <= |ws|
    requires x in ws[..m] && w in ws && w !in ws[..m]
    ensures exists i, j :: 0 <= i < m <= j < |ws| && ws[i] == x && ws[j] == w
  {
    var i :| 0 <= i < m && ws[..m][i] == x;
    var j :| 0 <= j < |ws| && ws[j] == w;
    assert forall k :: 0 <= k < m ==> ws[..m][k] == ws[k];
    assert ws[i] == x;
  }

  lemma SelectionInScoreOrder(wordList: seq<string>, progressMap: map<string, WordProgress>, now: int, m: nat)
    requires m <= |wordList|
    ensures var sel := Words(SortByScore(ScoreWords(wordList, progressMap, now))[..m]);
      forall i, j :: 0 <= i < j < m ==>
        WordScore(progressMap, now, sel[i]) >= WordScore(progressMap, now, sel[j])
  {
    var sorted := SortByScore(ScoreWords(wordList, progressMap, now));
    SortIsSorted(ScoreWords(wordList, progressMap, now));
    SortedScoresMatch(wordList, progressMap, now);
  }

  lemma SelectionDominates(wordList: seq<string>, progressMap: map<string, WordProgress>, now: int, m: nat)
    requires m <= |wordList|
    ensures var sel := Words(SortByScore(ScoreWords(wordList, progressMap, now))[..m]);
      forall w, x :: w in wordList && w !in sel && x in sel ==>
        WordScore(progressMap, now, x) >= WordScore(progressMap, now, w)
  {
    var sel := Words(SortByScore(ScoreWords(wordList, progressMap, now))[..m]);
    forall w, x | w in wordList && w !in sel && x in sel
      ensures WordScore(progressMap, now, x) >= WordScore(progressMap, now, w)
    {
      SelectedOutranks(wordList, progressMap, now, m, w, x);
    }
  }

  lemma SelectedOutranks(wordList: seq<string>, progressMap: map<string, WordProgress>, now: int, m: nat,
                         w: string, x: string)
    requires m <= |wordList|
    requires w in wordList && x in Words(SortByScore(ScoreWords(wordList, progressMap, now))[..m])
    requires w !in Words(SortByScore(ScoreWords(wordList, progressMap, now))[..m])
    ensures WordScore(progressMap, now, x) >= WordScore(progressMap, now, w)
  {
    var scored := ScoreWords(wordList, progressMap, now);
    var sorted := SortByScore(scored);
    var ws := Words(sorted);
    WordsPrefix(sorted, m);
    SortKeepsWords(scored);
    WordsOfScoreWords(wordList, progressMap, now);
    assert w in multiset(ws);
    PrefixPositions(ws, m, x, w);
    var i, j :| 0 <= i < m <= j < |ws| && ws[i] == x && ws[j] == w;
    SortIsSorted(scored);
    SortedScoresMatch(wordList, progressMap, now);
    assert sorted[i].score >= sorted[j].score;
  }

  /** The words of `ws` whose score is exactly `v`, in order. */
  function WordsScoring(ws: seq<string>, progressMap: map<string, WordProgress>, now: int, v: real)
    : seq<string>
  {
    if ws == [] then []
    else (if WordScore(progressMap, now, ws[0]) == v then [ws[0]] else [])
         + WordsScoring(ws[1..], progressMap, now, v)
  }

  lemma {:induction false} WordsScoringOfScored(s: seq<ScoredWord>, progressMap: map<string, WordProgress>, now: int, v: real)
    requires ScoresMatch(s, progressMap, now)
    ensures WordsScoring(Words(s), progressMap, now, v) == Words(WithScore(s, v))
  {
    if s != [] {
      assert Words(s)[1..] == Words(s[1..]);
      WordsScoringOfScored(s[1..], progressMap, now, v);
      WordsConcat(if s[0].score == v then [s[0]] else [], WithScore(s[1..], v));
    }
  }

  /** Ties keep the input order: among the selected words with any one score, the order
      is the one they have in the input, and they are the first such words of the input. */
  lemma CreateSetKeepsTieOrder(wordList: seq<string>, progressMap: map<string, WordProgress>, now: int, v: real)
    ensures var chosen := WordsScoring(CreateSet(wordList, progressMap, now).words, progressMap, now, v);
      chosen <= WordsScoring(wordList, progressMap, now, v)
  {
    var scored := ScoreWords(wordList, progressMap, now);
    var sorted := SortByScore(scored);
    var m := Min(SET_SIZE, |sorted|);
    // the selected words with score v are the words of the prefix's entries with score v
    SortedScoresMatch(wordList, progressMap, now);
    SelectedTies(sorted, m, progressMap, now, v);
    // which, the sort being stable, are the input's words with score v
    SortIsStable(scored, v);
    ScoredTies(wordList, progressMap, now, v);
  }

  /** In a prefix of correctly scored entries, the words with score `v` are a prefix of
      the words of all entries with score `v`. */
  lemma SelectedTies(s: seq<ScoredWord>, m: nat, progressMap: map<string, WordProgress>, now: int, v: real)
    requires m <= |s|
    requires ScoresMatch(s, progressMap, now)
    ensures WordsScoring(Words(s[..m]), progressMap, now, v) <= Words(WithScore(s, v))
  {
    assert ScoresMatch(s[..m], progressMap, now);
    WordsScoringOfScored(s[..m], progressMap, now, v);
    assert s == s[..m] + s[m..];
    WithScoreConcat(s[..m], s[m..], v);
    WordsConcat(WithScore(s[..m], v), WithScore(s[m..], v));
  }

  /** Scoring the word list, the words with score `v` are those of the list itself. */
  lemma ScoredTies(wordList: seq<string>, progressMap: map<string, WordProgress>, now: int, v: real)
    ensures Words(WithScore(ScoreWords(wordList, progressMap, now), v))
         == WordsScoring(wordList, progressMap, now, v)
  {
    WordsOfScoreWords(wordList, progressMap, now);
    WordsScoringOfScored(ScoreWords(wordList, progressMap, now), progressMap, now, v);
  }

  /** If the word list has no repeats, neither has the set. */
  lemma CreateSetDistinct(wordList: seq<string>, progressMap: map<string, WordProgress>, now: int)
    requires Seqs.Distinct(wordList)
    ensures Seqs.Distinct(CreateSet(wordList, progressMap, now).words)
  {
    var words := CreateSet(wordList, progressMap, now).words;
    forall x | x in multiset(words) ensures multiset(words)[x] <= 1 {
      assert multiset(words)[x] <= multiset(wordList)[x];
    }
  }

  // ---------------------------------------------------------------------------
  // Sequencing inside a set

  /** `words.filter(w => !done.has(w))`. */
  function Outstanding(words: seq<string>, done: set<string>): (r: seq<string>)
    ensures forall w :: w in r <==> w in words && w !in done
  {
    if words == [] then []
    else (if words[0] !in done then [words[0]] else []) + Outstanding(words[1..], done)
  }

  /** `ws.filter(w => keep.has(w))`. */
  function Among(ws: seq<string>, keep: set<string>): (r: seq<string>)
    ensures forall w :: w in r <==> w in ws && w in keep
  {
    if ws == [] then []
    else (if ws[0] in keep then [ws[0]] else []) + Among(ws[1..], keep)
  }

  /** `w` is the first word of `words`, in set order, that is not in `done`. */
  ghost predicate IsFirstOutstanding(words: seq<string>, done: set<string>, w: string) {
    exists i :: 0 <= i < |words| && words[i] == w && w !in done
      && forall j :: 0 <= j < i ==> words[j] in done
  }

  /** `w` is the first word of `words`, in set order, that is not in `done` but is in `forgot`. */
  ghost predicate IsFirstOutstandingForgot(words: seq<string>, done: set<string>, forgot: set<string>, w: string) {
    exists i :: 0 <= i < |words| && words[i] == w && w !in done && w in forgot
      && forall j :: 0 <= j < i ==> words[j] in done || words[j] !in forgot
  }

  lemma {:induction false} FirstOutstanding(words: seq<string>, done: set<string>)
    requires Outstanding(words, done) != []
    ensures IsFirstOutstanding(words, done, Outstanding(words, done)[0])
  {
    if words[0] in done {
      FirstOutstanding(words[1..], done);
      var i :| 0 <= i < |words[1..]| && words[1..][i] == Outstanding(words[1..], done)[0]
        && Outstanding(words[1..], done)[0] !in done
        && forall j :: 0 <= j < i ==> words[1..][j] in done;
      assert words[i + 1] == Outstanding(words, done)[0];
      assert forall j :: 0 <= j < i + 1 ==> words[j] in done by {
        forall j | 0 <= j < i + 1 ensures words[j] in done {
          if j > 0 { assert words[j] == words[1..][j - 1]; }
        }
      }
    } else {
      assert words[0] == Outstanding(words, done)[0];
    }
  }

  lemma {:induction false} FirstOutstandingForgot(words: seq<string>, done: set<string>, forgot: set<string>)
    requires Among(Outstanding(words, done), forgot) != []
    ensures IsFirstOutstandingForgot(words, done, forgot, Among(Outstanding(words, done), forgot)[0])
  {
    var first := Among(Outstanding(words, done), forgot)[0];
    if words[0] !in done && words[0] in forgot {
      assert Outstanding(words, done)[0] == words[0];
      assert first == words[0];
    } else {
      assert Among(Outstanding(words, done), forgot) == Among(Outstanding(words[1..], done), forgot) by {
        var o := Outstanding(words[1..], done);
        if words[0] !in done {
          assert words[0] !in forgot;
          var wo := [words[0]] + o;
          assert Outstanding(words, done) == wo;
          assert wo[0] == words[0] && wo[1..] == o;
          assert Among(wo, forgot) == [] + Among(wo[1..], forgot);
          assert [] + Among(o, forgot) == Among(o, forgot);
        } else {
          assert Outstanding(words, done) == [] + o;
          assert [] + o == o;
        }
      }
      FirstOutstandingForgot(words[1..], done, forgot);
      var i :| 0 <= i < |words[1..]| && words[1..][i] == first && first !in done && first in forgot
        && forall j :: 0 <= j < i ==> words[1..][j] in done || words[1..][j] !in forgot;
      assert words[i + 1] == first;
      forall j | 0 <= j < i + 1 ensures words[j] in done || words[j] !in forgot {
        if j > 0 { assert words[j] == words[1..][j - 1]; }
      }
    }
  }

  /** `getNextWord`: None once every word of the set is completed; otherwise the first
      outstanding word that was forgotten, or failing that the first outstanding word. */
  function GetNextWord(s: StudySet): (r: Option<string>)
    ensures r.None? <==> forall w :: w in s.words ==> w in s.completedWords
    ensures r.Some? ==> r.value in s.words && r.value !in s.completedWords
    ensures r.Some? && (exists w :: w in s.words && w !in s.completedWords && w in s.forgotWords)
            ==> IsFirstOutstandingForgot(s.words, s.completedWords, s.forgotWords, r.value)
    ensures r.Some? && !(exists w :: w in s.words && w !in s.completedWords && w in s.forgotWords)
            ==> IsFirstOutstanding(s.words, s.completedWords, r.value)
  {
    var remaining := Outstanding(s.words, s.completedWords);
    if remaining == [] then None
    else
      var forgotRemaining := Among(remaining, s.forgotWords);
      if forgotRemaining != [] then
        FirstOutstandingForgot(s.words, s.completedWords, s.forgotWords);
        Some(forgotRemaining[0])
      else
        FirstOutstanding(s.words, s.completedWords);
        assert remaining[0] in remaining;
        Some(remaining[0])
  }

  /** `recordAnswer`: a copy of the set in which 'forgot' adds the word to the forgotten
      words and any other rating adds it to the completed words. */
  function RecordAnswer(s: StudySet, word: string, rating: string): (r: StudySet)
    ensures r.words == s.words
    ensures rating == FORGOT ==> r.forgotWords == s.forgotWords + {word} && r.completedWords == s.completedWords
    ensures rating != FORGOT ==> r.completedWords == s.completedWords + {word} && r.forgotWords == s.forgotWords
  {
    if rating == FORGOT then StudySet(s.words, s.completedWords, s.forgotWords + {word})
    else StudySet(s.words, s.completedWords + {word}, s.forgotWords)
  }

  /** The words of a set, as a set. */
  ghost function WordSet(s: StudySet): set<string> {
    set w | w in s.words
  }

  /** The set was built without repeats and only its own words were answered. */
  ghost predicate WellFormed(s: StudySet) {
    Seqs.Distinct(s.words) && s.completedWords <= WordSet(s)
  }

  lemma CompletedBelowTotal(s: StudySet)
    ensures WellFormed(s) ==> |s.completedWords| <= |s.words|
    ensures WellFormed(s) ==> (|s.completedWords| == |s.words| <==> WordSet(s) <= s.completedWords)
  {
    if WellFormed(s) {
      Seqs.DistinctCardinality(s.words);
      Seqs.SubsetCardinality(s.completedWords, WordSet(s));
      if WordSet(s) <= s.completedWords {
        assert s.completedWords == WordSet(s);
      }
    }
  }

  /** `isSetComplete`: every word counted as completed. On a well-formed set this is
      exactly when there is no next word. */
  function IsSetComplete(s: StudySet): (complete: bool)
    ensures WellFormed(s) ==> (complete <==> GetNextWord(s).None?)
  {
    CompletedBelowTotal(s);
    |s.completedWords| == |s.words|
  }

  /** `getSetProgress`: completed count over set size; never above the size on a
      well-formed set. */
  function GetSetProgress(s: StudySet): (p: SetProgress)
    ensures p.total == |s.words| && p.current == |s.completedWords|
    ensures WellFormed(s) ==> p.current <= p.total
    ensures p.current == p.total <==> IsSetComplete(s)
  {
    CompletedBelowTotal(s);
    SetProgress(|s.completedWords|, |s.words|)
  }

  /** `hasForgotten`. While a forgotten word is still outstanding, the next word offered
      is a forgotten one. */
  function HasForgotten(s: StudySet, word: string): (r: bool)
    ensures r && word in s.words && word !in s.completedWords
            ==> GetNextWord(s).Some? && GetNextWord(s).value in s.forgotWords
  {
    word in s.forgotWords
  }

  /** After an answer, exactly the words answered 'forgot' so far count as forgotten:
      the ones before, and the answered word if its rating was 'forgot'. */
  lemma HasForgottenAfterAnswer(s: StudySet, w: string, rating: string, v: string)
    ensures HasForgotten(RecordAnswer(s, w, rating), v)
        <==> HasForgotten(s, v) || (v == w && rating == FORGOT)
  {
  }

  /** A word just answered 'forgot' is offered again next, unless an earlier forgotten
      word of the set is still outstanding. */
  lemma ForgottenWordComesBack(s: StudySet, w: string)
    requires w in s.words && w !in s.completedWords
    requires forall x :: x in s.words && x !in s.completedWords ==> x !in s.forgotWords
    ensures HasForgotten(RecordAnswer(s, w, FORGOT), w)
    ensures GetNextWord(RecordAnswer(s, w, FORGOT)) == Some(w)
  {
    var s' := RecordAnswer(s, w, FORGOT);
    assert w in s'.words && w !in s'.completedWords && w in s'.forgotWords;
  }

  /** Ask `GetNextWord` and answer the word it offers 'remembered' (nothing when none is offered). */
  function AnswerNextRemembered(s: StudySet): StudySet {
    var next := GetNextWord(s);
    if next.None? then s else RecordAnswer(s, next.value, REMEMBERED)
  }

  /** `k` rounds of `AnswerNextRemembered`. */
  function AnswerRemembered(s: StudySet, k: nat): StudySet
    decreases k
  {
    if k == 0 then s else AnswerNextRemembered(AnswerRemembered(s, k - 1))
  }

  /** One answer on a well-formed, unfinished set completes one more of its words. */
  lemma RememberedStep(s: StudySet)
    requires WellFormed(s)
    requires |s.completedWords| < |s.words|
    ensures GetNextWord(s).Some?
    ensures var s' := AnswerNextRemembered(s);
      s'.words == s.words && WellFormed(s') && |s'.completedWords| == |s.completedWords| + 1
  {
    CompletedBelowTotal(s);
    assert !(WordSet(s) <= s.completedWords);
    var u :| u in WordSet(s) && u !in s.completedWords;
    assert u in s.words;
    var next := GetNextWord(s);
    var w := next.value;
    var s' := RecordAnswer(s, w, REMEMBERED);
    assert WordSet(s') == WordSet(s);
  }

  lemma {:induction false} AnswerRememberedProgress(s: StudySet, k: nat)
    requires WellFormed(s)
    requires |s.completedWords| + k <= |s.words|
    ensures AnswerRemembered(s, k).words == s.words
    ensures WellFormed(AnswerRemembered(s, k))
    ensures |AnswerRemembered(s, k).completedWords| == |s.completedWords| + k
    decreases k
  {
    if k > 0 {
      var prev := AnswerRemembered(s, k - 1);
      AnswerRememberedProgress(s, k - 1);
      RememberedStep(prev);
      assert AnswerRemembered(s, k) == AnswerNextRemembered(prev);
    }
  }

  /** For a set without repeats, answering every offered word 'remembered' completes it
      after exactly as many answers as it has words, and not before. */
  lemma RememberedRoundCompletes(s: StudySet)
    requires Seqs.Distinct(s.words) && s.completedWords == {}
    ensures IsSetComplete(AnswerRemembered(s, |s.words|))
    ensures forall k :: 0 <= k < |s.words| ==> !IsSetComplete(AnswerRemembered(s, k))
  {
    AnswerRememberedProgress(s, |s.words|);
    forall k | 0 <= k < |s.words| ensures !IsSetComplete(AnswerRemembered(s, k)) {
      AnswerRememberedProgress(s, k);
    }
  }
}
