/** The stored study log (`logsStorage`) and its range and word queries. */
module LogsStorage {
  import opened Wrappers
  import opened Records
  import Seqs

  /** The inclusive time range test of `filterByDate` and `getTodayLogs`. */
  function InRange(start: int, end: int): StudyLog -> bool {
    (log: StudyLog) => start <= log.timestamp <= end
  }

  function IsWord(word: string): StudyLog -> bool {
    (log: StudyLog) => log.word == word
  }

  /** The logs with `start <= timestamp <= end`, in stored order. */
  function LogsBetween(logs: seq<StudyLog>, start: int, end: int): (r: seq<StudyLog>)
    ensures forall x :: x in r <==> x in logs && start <= x.timestamp <= end
    ensures |r| <= |logs|
  {
    var r := Seqs.Filter(logs, InRange(start, end));
    assert forall x :: x in logs && start <= x.timestamp <= end ==> x in r by {
      forall x | x in logs && start <= x.timestamp <= end ensures x in r {
        var i :| 0 <= i < |logs| && logs[i] == x;
      }
    }
    r
  }

  /** The logs of one word, in stored order. */
  function LogsOfWord(logs: seq<StudyLog>, word: string): (r: seq<StudyLog>)
    ensures forall x :: x in r <==> x in logs && x.word == word
    ensures |r| <= |logs|
  {
    var r := Seqs.Filter(logs, IsWord(word));
    assert forall x :: x in logs && x.word == word ==> x in r by {
      forall x | x in logs && x.word == word ensures x in r {
        var i :| 0 <= i < |logs| && logs[i] == x;
      }
    }
    r
  }

  /** Appending a log extends the range query by that log exactly when it is in
      range, so the query keeps the stored order. */
  lemma RangeAfterAppend(logs: seq<StudyLog>, log: StudyLog, start: int, end: int)
    ensures LogsBetween(logs + [log], start, end)
         == LogsBetween(logs, start, end) + (if start <= log.timestamp <= end then [log] else [])
  {
    Seqs.FilterConcat(logs, [log], InRange(start, end));
    Seqs.FilterSingleton(log, InRange(start, end));
  }

  /** Appending a log extends the word query by that log exactly when it is a log of
      that word. */
  lemma WordAfterAppend(logs: seq<StudyLog>, log: StudyLog, word: string)
    ensures LogsOfWord(logs + [log], word)
         == LogsOfWord(logs, word) + (if log.word == word then [log] else [])
  {
    Seqs.FilterConcat(logs, [log], IsWord(word));
    Seqs.FilterSingleton(log, IsWord(word));
  }

  /** The `logsStorage` object; `stored` is the decoded value under its key, None while
      the key is absent. */
  class LogsStorage {
    var stored: Option<seq<StudyLog>>

    constructor(stored: Option<seq<StudyLog>>)
      ensures this.stored == stored
    {
      this.stored := stored;
    }

    /** `load`: the stored list, or the empty list when nothing is stored. */
    function Load(): (logs: seq<StudyLog>)
      reads this
      ensures stored.None? ==> logs == []
      ensures stored.Some? ==> logs == stored.value
    {
      stored.GetOr([])
    }

    /** `save`. */
    method Save(logs: seq<StudyLog>)
      modifies this
      ensures stored == Some(logs)
    {
      stored := Some(logs);
    }

    /** `add`: appends the log after the existing ones. */
    method Add(log: StudyLog)
      modifies this
      ensures Load() == old(Load()) + [log] && stored.Some?
    {
      var logs := Load();
      logs := logs + [log];
      Save(logs);
    }

    /** `filterByDate(start, end)`, both bounds inclusive. */
    function FilterByDate(start: int, end: int): (r: seq<StudyLog>)
      reads this
      ensures r == LogsBetween(Load(), start, end)
    {
      LogsBetween(Load(), start, end)
    }

    /** `getByWord(word)`. */
    function GetByWord(word: string): (r: seq<StudyLog>)
      reads this
      ensures r == LogsOfWord(Load(), word)
    {
      LogsOfWord(Load(), word)
    }

    /** `getTodayLogs`, with the clock's day bounds passed in: the same inclusive range. */
    function GetTodayLogs(todayStart: int, todayEnd: int): (r: seq<StudyLog>)
      reads this
      ensures r == FilterByDate(todayStart, todayEnd)
    {
      LogsBetween(Load(), todayStart, todayEnd)
    }

    /** `clear`: removes the key, so `load` gives the empty list again. */
    method Clear()
      modifies this
      ensures stored == None && Load() == []
    {
      stored := None;
    }
  }
}
