/** The stored progress map (`progressStorage`), keyed by word. */
module ProgressStorage {
  import opened Wrappers
  import opened Records

  /** `progress[word] || null`: a record is an object and so always truthy. */
  function Lookup(progress: map<string, WordProgress>, word: string): (r: Option<WordProgress>)
    ensures r.Some? <==> word in progress
    ensures r.Some? ==> r.value == progress[word]
  {
    if word in progress then Some(progress[word]) else None
  }

  /** Reading back after `progress[word] = p` finds `p` under `word` and the old
      record under every other key. */
  lemma LookupAfterUpdate(progress: map<string, WordProgress>, word: string, p: WordProgress, other: string)
    ensures Lookup(progress[word := p], word) == Some(p)
    ensures other != word ==> Lookup(progress[word := p], other) == Lookup(progress, other)
  {
  }

  /** The `progressStorage` object; `stored` is the decoded value under its key, None
      while the key is absent. */
  class ProgressStorage {
    var stored: Option<map<string, WordProgress>>

    constructor(stored: Option<map<string, WordProgress>>)
      ensures this.stored == stored
    {
      this.stored := stored;
    }

    /** `load`: the stored map, or the empty map when nothing is stored. */
    function Load(): (progress: map<string, WordProgress>)
      reads this
      ensures stored.None? ==> progress == map[]
      ensures stored.Some? ==> progress == stored.value
    {
      stored.GetOr(map[])
    }

    /** `save`. */
    method Save(progress: map<string, WordProgress>)
      modifies this
      ensures stored == Some(progress)
    {
      stored := Some(progress);
    }

    /** `get(word)`. */
    function Get(word: string): (r: Option<WordProgress>)
      reads this
      ensures r == Lookup(Load(), word)
    {
      Lookup(Load(), word)
    }

    /** `update(word, p)`: the stored map with `word` bound to `p`. */
    method Update(word: string, p: WordProgress)
      modifies this
      ensures stored == Some(old(Load())[word := p])
      ensures Get(word) == Some(p)
      ensures forall other :: other != word ==> Get(other) == old(Get(other))
    {
      var all := Load();
      all := all[word := p];
      Save(all);
    }

    /** `clear`: removes the key, so `load` gives the empty map again. */
    method Clear()
      modifies this
      ensures stored == None && Load() == map[]
    {
      stored := None;
    }
  }
}
