/** The progress store (`progressStore`): per-word records with the two derived
    counts, written through to `progressStorage` on every update. */
module ProgressStore {
  import opened Wrappers
  import opened Records
  import opened ProgressStorage
  import Seqs

  /** The words whose state is not 'New'. */
  function Learned(progress: map<string, WordProgress>): (ws: set<string>)
    ensures forall w :: w in ws <==> w in progress && progress[w].state != STATE_NEW
  {
    set w | w in progress && progress[w].state != STATE_NEW
  }

  /** `learnedWordCount`: the number of records whose state is not 'New'. */
  function LearnedWordCount(progress: map<string, WordProgress>): (n: nat)
    ensures n <= |progress|
    ensures n == 0 <==> forall w :: w in progress ==> progress[w].state == STATE_NEW
  {
    var learned := Learned(progress);
    Seqs.SubsetCardinality(learned, progress.Keys);
    |learned|
  }

  /** Some key of a non-empty map. */
  ghost function Pick(progress: map<string, WordProgress>): (w: string)
    requires progress != map[]
    ensures w in progress
  {
    var w :| w in progress; w
  }

  /** `totalReps`: the sum of `reps` over all records. */
  ghost function TotalReps(progress: map<string, WordProgress>): (total: int)
    ensures (forall w :: w in progress ==> progress[w].reps >= 0) ==> total >= 0
    decreases |progress|
  {
    if progress == map[] then 0
    else
      var w := Pick(progress);
      assert |progress - {w}| < |progress| by {
        assert progress.Keys - {w} < progress.Keys;
        Seqs.SubsetCardinality(progress.Keys - {w}, progress.Keys);
      }
      progress[w].reps + TotalReps(progress - {w})
  }

  lemma SmallerWithout(progress: map<string, WordProgress>, w: string)
    requires w in progress
    ensures |progress - {w}| == |progress| - 1
  {
    assert (progress - {w}).Keys == progress.Keys - {w};
  }

  /** The sum does not depend on which key is taken first. */
  lemma {:induction false} TotalRepsRemove(progress: map<string, WordProgress>, w: string)
    requires w in progress
    ensures TotalReps(progress) == progress[w].reps + TotalReps(progress - {w})
    decreases |progress|
  {
    var v := Pick(progress);
    if v != w {
      SmallerWithout(progress, v);
      SmallerWithout(progress, w);
      TotalRepsRemove(progress - {v}, w);
      TotalRepsRemove(progress - {w}, v);
      assert progress - {v} - {w} == progress - {w} - {v};
    }
  }

  /** How an update moves the total: the old record's reps out, the new one's in. */
  lemma TotalRepsAfterUpdate(progress: map<string, WordProgress>, word: string, p: WordProgress)
    ensures TotalReps(progress[word := p])
         == TotalReps(progress) - (if word in progress then progress[word].reps else 0) + p.reps
  {
    var updated := progress[word := p];
    TotalRepsRemove(updated, word);
    if word in progress {
      TotalRepsRemove(progress, word);
      assert updated - {word} == progress - {word};
    } else {
      assert updated - {word} == progress;
    }
  }

  /** How an update moves the learned count: by the change of that one record. */
  lemma LearnedAfterUpdate(progress: map<string, WordProgress>, word: string, p: WordProgress)
    ensures LearnedWordCount(progress[word := p])
         == LearnedWordCount(progress)
            - (if word in progress && progress[word].state != STATE_NEW then 1 else 0)
            + (if p.state != STATE_NEW then 1 else 0)
  {
    var before := Learned(progress);
    var after := Learned(progress[word := p]);
    assert after - {word} == before - {word};
    CardWithout(before, word);
    CardWithout(after, word);
  }

  lemma CardWithout(ws: set<string>, x: string)
    ensures |ws| == |ws - {x}| + (if x in ws then 1 else 0)
  {
    if x in ws {
      assert ws == (ws - {x}) + {x};
    } else {
      assert ws == ws - {x};
    }
  }

  class ProgressStore {
    var progress: map<string, WordProgress>
    const storage: ProgressStorage

    constructor(storage: ProgressStorage)
      ensures progress == map[] && this.storage == storage
    {
      progress := map[];
      this.storage := storage;
    }

    /** `loadProgress`. */
    method LoadProgress()
      modifies this
      ensures progress == storage.Load()
    {
      progress := storage.Load();
    }

    /** `saveProgress`: writes the whole map. */
    method SaveProgress()
      modifies storage
      ensures storage.stored == Some(progress)
    {
      storage.Save(progress);
    }

    /** `updateProgress(word, p)`: binds `word` to `p`, keeps every other record, and
        saves the whole map. */
    method UpdateProgress(word: string, p: WordProgress)
      modifies this, storage
      ensures progress == old(progress)[word := p]
      ensures storage.stored == Some(progress)
    {
      progress := progress[word := p];
      SaveProgress();
    }

    /** `getProgress(word)`: the record, or None (`null`) for an unknown word. */
    function GetProgress(word: string): (r: Option<WordProgress>)
      reads this
      ensures r == Lookup(progress, word)
    {
      Lookup(progress, word)
    }

    /** `resetProgress`: empties the map and removes the storage key; both derived
        counts drop to zero. */
    method ResetProgress()
      modifies this, storage
      ensures progress == map[] && storage.stored == None
      ensures LearnedWordCount(progress) == 0 && TotalReps(progress) == 0
    {
      progress := map[];
      storage.Clear();
    }
  }
}
