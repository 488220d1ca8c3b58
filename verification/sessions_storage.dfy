/** The stored list of study sessions (`sessionsStorage`). */
module SessionsStorage {
  import opened Wrappers
  import opened Records

  /** `Partial<StudySession>`: each present field overrides the session's own. `endAt`
      is doubly optional: Some(None) writes `null`. */
  datatype SessionUpdate = SessionUpdate(
    id: Option<string>,
    startAt: Option<int>,
    endAt: Option<Option<int>>,
    totalActiveSec: Option<int>,
    studyCount: Option<int>)

  const NO_UPDATE := SessionUpdate(None, None, None, None, None)

  /** `{ ...s, ...u }`. */
  function Merge(s: StudySession, u: SessionUpdate): (r: StudySession)
    ensures r.id == u.id.GetOr(s.id) && r.startAt == u.startAt.GetOr(s.startAt)
    ensures r.endAt == u.endAt.GetOr(s.endAt)
    ensures r.totalActiveSec == u.totalActiveSec.GetOr(s.totalActiveSec)
    ensures r.studyCount == u.studyCount.GetOr(s.studyCount)
  {
    StudySession(u.id.GetOr(s.id), u.startAt.GetOr(s.startAt), u.endAt.GetOr(s.endAt),
                 u.totalActiveSec.GetOr(s.totalActiveSec), u.studyCount.GetOr(s.studyCount))
  }

  /** An empty update changes nothing, and applying the same update twice is applying
      it once. */
  lemma MergeLaws(s: StudySession, u: SessionUpdate)
    ensures Merge(s, NO_UPDATE) == s
    ensures Merge(Merge(s, u), u) == Merge(s, u)
  {
  }

  /** `findIndex((s) => s.id === id)`, with None for -1. */
  function IndexOfId(sessions: seq<StudySession>, id: string): (r: Option<nat>)
    ensures r.Some? ==> r.value < |sessions| && sessions[r.value].id == id
    ensures r.Some? ==> forall j :: 0 <= j < r.value ==> sessions[j].id != id
    ensures r.None? <==> forall j :: 0 <= j < |sessions| ==> sessions[j].id != id
  {
    if sessions == [] then None
    else if sessions[0].id == id then Some(0)
    else match IndexOfId(sessions[1..], id)
      case None => None
      case Some(i) => Some(i + 1)
  }

  /** Appending a session whose id is new makes it the one its id finds. */
  lemma IndexOfAppended(sessions: seq<StudySession>, s: StudySession)
    requires IndexOfId(sessions, s.id).None?
    ensures IndexOfId(sessions + [s], s.id) == Some(|sessions|)
  {
    var r := IndexOfId(sessions + [s], s.id);
    assert (sessions + [s])[|sessions|].id == s.id;
    assert forall j :: 0 <= j < |sessions| ==> (sessions + [s])[j] == sessions[j];
  }

  /** The list after merging `u` into the first session with `id`, if any. */
  function UpdateById(sessions: seq<StudySession>, id: string, u: SessionUpdate): (r: seq<StudySession>)
    ensures |r| == |sessions|
    ensures IndexOfId(sessions, id).None? ==> r == sessions
    ensures IndexOfId(sessions, id).Some? ==>
      var i := IndexOfId(sessions, id).value;
      r[i] == Merge(sessions[i], u) && forall j :: 0 <= j < |sessions| && j != i ==> r[j] == sessions[j]
  {
    match IndexOfId(sessions, id)
    case None => sessions
    case Some(i) => sessions[i := Merge(sessions[i], u)]
  }

  /** `find((s) => s.endAt === null) || null`: the first running session. */
  function FirstActive(sessions: seq<StudySession>): (r: Option<StudySession>)
    ensures r.Some? ==> r.value in sessions && r.value.endAt.None?
    ensures r.Some? ==> exists i :: 0 <= i < |sessions| && sessions[i] == r.value
                          && forall j :: 0 <= j < i ==> sessions[j].endAt.Some?
    ensures r.None? <==> forall j :: 0 <= j < |sessions| ==> sessions[j].endAt.Some?
  {
    if sessions == [] then None
    else if sessions[0].endAt.None? then Some(sessions[0])
    else
      var r := FirstActive(sessions[1..]);
      if r.Some? then
        assert r.value == sessions[1..][IndexOfFirstActive(sessions[1..])];
        Some(r.value)
      else None
  }

  /** The position of the first running session. */
  function IndexOfFirstActive(sessions: seq<StudySession>): (i: nat)
    requires exists j :: 0 <= j < |sessions| && sessions[j].endAt.None?
    ensures i < |sessions| && sessions[i].endAt.None?
    ensures forall j :: 0 <= j < i ==> sessions[j].endAt.Some?
  {
    if sessions[0].endAt.None? then 0
    else
      assert exists j :: 0 <= j < |sessions[1..]| && sessions[1..][j].endAt.None? by {
        var j :| 0 <= j < |sessions| && sessions[j].endAt.None?;
        assert sessions[1..][j - 1] == sessions[j];
      }
      1 + IndexOfFirstActive(sessions[1..])
  }

  /** The `sessionsStorage` object; `stored` is the decoded value under its key, None
      while the key is absent. */
  class SessionsStorage {
    var stored: Option<seq<StudySession>>

    constructor(stored: Option<seq<StudySession>>)
      ensures this.stored == stored
    {
      this.stored := stored;
    }

    /** `load`: the stored list, or the empty list when nothing is stored. */
    function Load(): (sessions: seq<StudySession>)
      reads this
      ensures stored.None? ==> sessions == []
      ensures stored.Some? ==> sessions == stored.value
    {
      stored.GetOr([])
    }

    /** `save`. */
    method Save(sessions: seq<StudySession>)
      modifies this
      ensures stored == Some(sessions)
    {
      stored := Some(sessions);
    }

    /** `add`: appends the session after the existing ones. */
    method Add(session: StudySession)
      modifies this
      ensures Load() == old(Load()) + [session] && stored.Some?
    {
      var sessions := Load();
      sessions := sessions + [session];
      Save(sessions);
    }

    /** What `update(id, u)` leaves under the key: nothing is written when no session
        has the id. */
    function AfterUpdate(id: string, u: SessionUpdate): (r: Option<seq<StudySession>>)
      reads this
      ensures IndexOfId(Load(), id).None? ==> r == stored
      ensures IndexOfId(Load(), id).Some? ==> r == Some(UpdateById(Load(), id, u))
    {
      if IndexOfId(Load(), id).Some? then Some(UpdateById(Load(), id, u)) else stored
    }

    /** `update(id, u)`: merges `u` into the first session with that id and saves. */
    method Update(id: string, u: SessionUpdate)
      modifies this
      ensures stored == old(AfterUpdate(id, u))
    {
      var sessions := Load();
      var index := IndexOfId(sessions, id);
      if index.Some? {
        sessions := sessions[index.value := Merge(sessions[index.value], u)];
        Save(sessions);
      }
    }

    /** `getActive`: the first stored session still running. */
    function GetActive(): (r: Option<StudySession>)
      reads this
      ensures r == FirstActive(Load())
    {
      FirstActive(Load())
    }

    /** `clear`: removes the key, so `load` gives the empty list again. */
    method Clear()
      modifies this
      ensures stored == None && Load() == []
    {
      stored := None;
    }
  }
}
