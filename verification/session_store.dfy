/** The study-session store (`sessionStore`): the running session, whether it is
    active, and the write-through to the stored session list. */
module SessionStore {
  import opened Wrappers
  import opened Records
  import opened SessionsStorage

  /** `Math.floor((now - startAt) / 1000)`: whole seconds elapsed, rounded down. */
  function ElapsedSeconds(startAt: int, now: int): (secs: int)
    ensures secs * 1000 <= now - startAt < secs * 1000 + 1000
    ensures now >= startAt ==> secs >= 0
  {
    (now - startAt) / 1000
  }

  /** The session `startSession` creates, with the generated id passed in. */
  function NewSession(id: string, now: int): (s: StudySession)
    ensures s.id == id && s.startAt == now && s.endAt.None?
    ensures s.totalActiveSec == 0 && s.studyCount == 0
  {
    StudySession(id, now, None, 0, 0)
  }

  /** The updates `endSession` and `incrementStudyCount` send to the storage. */
  function EndUpdate(now: int, secs: int): SessionUpdate {
    SessionUpdate(None, None, Some(Some(now)), Some(secs), None)
  }

  function CountUpdate(count: int): SessionUpdate {
    SessionUpdate(None, None, None, None, Some(count))
  }

  /** Merging the end-of-session update into the stored copy gives the session the
      store ends with: the stored copy stays in step. */
  lemma EndUpdateMirrors(s: StudySession, now: int)
    ensures Merge(s, EndUpdate(now, ElapsedSeconds(s.startAt, now)))
         == s.(endAt := Some(now), totalActiveSec := ElapsedSeconds(s.startAt, now))
  {
  }

  /** Merging the count update into the stored copy gives the store's new session. */
  lemma CountUpdateMirrors(s: StudySession)
    ensures Merge(s, CountUpdate(s.studyCount + 1)) == s.(studyCount := s.studyCount + 1)
  {
  }

  class SessionStore {
    var current: Option<StudySession>
    var isActive: bool
    const storage: SessionsStorage

    constructor(storage: SessionsStorage)
      ensures current.None? && !isActive && this.storage == storage
    {
      current := None;
      isActive := false;
      this.storage := storage;
    }

    /** The stored copy of the current session, if there is one, equals it. */
    predicate Mirrored()
      reads this, storage
    {
      current.None? ||
      (var i := IndexOfId(storage.Load(), current.value.id);
       i.Some? && storage.Load()[i.value] == current.value)
    }

    /** `activeTime`: whole seconds since the start of the active session, else 0. */
    function ActiveTime(now: int): (secs: int)
      reads this
      ensures !isActive || current.None? ==> secs == 0
      ensures isActive && current.Some? ==>
        secs * 1000 <= now - current.value.startAt < secs * 1000 + 1000
    {
      if !isActive || current.None? then 0 else ElapsedSeconds(current.value.startAt, now)
    }

    /** `startSession`, with the generated id and the clock passed in: a fresh running
        session becomes current and is appended to the stored list. */
    method StartSession(id: string, now: int)
      modifies this, storage
      ensures current == Some(NewSession(id, now)) && isActive
      ensures storage.Load() == old(storage.Load()) + [NewSession(id, now)]
      ensures IndexOfId(old(storage.Load()), id).None? ==> Mirrored()
    {
      var session := NewSession(id, now);
      current := Some(session);
      isActive := true;
      storage.Add(session);
      if IndexOfId(old(storage.Load()), id).None? {
        IndexOfAppended(old(storage.Load()), session);
      }
    }

    /** `endSession`: closes the current session at `now` and records its duration,
        in the store and in the stored copy; without a current session, nothing. */
    method EndSession(now: int)
      modifies this, storage
      ensures old(current).None? ==>
        current == old(current) && isActive == old(isActive) && storage.stored == old(storage.stored)
      ensures old(current).Some? ==>
        var c := old(current).value;
        var secs := ElapsedSeconds(c.startAt, now);
        && current == Some(c.(endAt := Some(now), totalActiveSec := secs))
        && !isActive
        && storage.stored == old(storage.AfterUpdate(c.id, EndUpdate(now, secs)))
      ensures old(isActive) && old(current).Some? ==> current.value.totalActiveSec == old(ActiveTime(now))
      ensures old(Mirrored()) ==> Mirrored()
    {
      if current.None? {
        return;
      }
      var c := current.value;
      var secs := ElapsedSeconds(c.startAt, now);
      var ended := c.(endAt := Some(now), totalActiveSec := secs);
      storage.Update(c.id, EndUpdate(now, secs));
      current := Some(ended);
      isActive := false;
      EndUpdateMirrors(c, now);
    }

    /** `incrementStudyCount`: one more word studied in the current session, in the
        store and in the stored copy; without a current session, nothing. */
    method IncrementStudyCount()
      modifies this, storage
      ensures old(current).None? ==> current == old(current) && storage.stored == old(storage.stored)
      ensures old(current).Some? ==>
        var c := old(current).value;
        && current == Some(c.(studyCount := c.studyCount + 1))
        && storage.stored == old(storage.AfterUpdate(c.id, CountUpdate(c.studyCount + 1)))
      ensures isActive == old(isActive)
      ensures old(Mirrored()) ==> Mirrored()
    {
      if current.None? {
        return;
      }
      var c := current.value;
      var updated := c.(studyCount := c.studyCount + 1);
      storage.Update(c.id, CountUpdate(updated.studyCount));
      current := Some(updated);
      CountUpdateMirrors(c);
    }

    /** `restoreSession`: resumes the first stored running session, if any. */
    method RestoreSession()
      modifies this
      ensures storage.GetActive().Some? ==> current == storage.GetActive() && isActive
      ensures storage.GetActive().None? ==> current == old(current) && isActive == old(isActive)
    {
      var active := storage.GetActive();
      if active.Some? {
        current := active;
        isActive := true;
      }
    }

    /** `resetSession`: no current session. */
    method ResetSession()
      modifies this
      ensures current.None? && !isActive
    {
      current := None;
      isActive := false;
    }
  }
}
