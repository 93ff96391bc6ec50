/** `SessionMemory` (app/agent.py:18-87): conversation histories kept in
    a map from session id to session data. Each operation is a function
    from the old map to the new one. The current time and a fresh id are
    parameters; times are integers counting microseconds, the resolution
    of Python's `datetime`. */
module SessionMemory {
  import opened Wrappers
  import opened PyStrings
  import opened Records

  datatype SessionData = SessionData(history: seq<Turn>, createdAt: int, lastAccessed: int)

  type Sessions = map<string, SessionData>

  const MicrosPerSecond: int := 1000000

  /** Python truthiness of an optional id: no id and "" both count as
      none given. */
  predicate Given(sid: Option<string>) {
    sid.Some? && sid.value != ""
  }

  /** The sessions after a call, and the id it returned. */
  datatype Opened = Opened(sessions: Sessions, id: string)

  /** `get_or_create_session`: a given id of a known session refreshes
      that session's access time and nothing else; otherwise a session
      with an empty history is created under the given id, or under
      `newId` when none is given. */
  function GetOrCreateSession(m: Sessions, sid: Option<string>, newId: string, now: int): (r: Opened)
    ensures r.sessions.Keys == m.Keys + {r.id}
    ensures forall k :: k in m && k != r.id ==> r.sessions[k] == m[k]
    ensures Given(sid) && sid.value in m ==>
              r.id == sid.value && r.sessions[r.id] == m[r.id].(lastAccessed := now)
    ensures !(Given(sid) && sid.value in m) ==>
              r.id == (if Given(sid) then sid.value else newId) && r.sessions[r.id] == SessionData([], now, now)
  {
    if Given(sid) && sid.value in m then
      Opened(m[sid.value := m[sid.value].(lastAccessed := now)], sid.value)
    else
      var id := if Given(sid) then sid.value else newId;
      Opened(m[id := SessionData([], now, now)], id)
  }

  /** Opening the returned id again, later, finds the same session: same
      id, same history and creation time, no other session touched. */
  lemma ReopenFindsSession(m: Sessions, sid: Option<string>, newId: string, now: int, newId2: string, later: int)
    requires newId != ""
    ensures var r := GetOrCreateSession(m, sid, newId, now);
            var r2 := GetOrCreateSession(r.sessions, Some(r.id), newId2, later);
            r2.id == r.id && r2.sessions.Keys == r.sessions.Keys
            && r2.sessions[r.id].history == r.sessions[r.id].history
            && r2.sessions[r.id].createdAt == r.sessions[r.id].createdAt
  {
  }

  /** The result of `add_message`: the sessions, and whether it returned
      normally (it raises `KeyError` for the id "" when no session has
      that id, after creating a session under a newId id instead). */
  datatype Added = Added(sessions: Sessions, ok: bool)

  /** `history[-2 * max:]` when the history is longer than `2 * max`. */
  function Truncate(h: seq<Turn>, maxHistory: int): seq<Turn> {
    if |h| > maxHistory * 2 then Slice(h, -maxHistory * 2, |h|) else h
  }

  lemma TruncateKeepsRecent(h: seq<Turn>, maxHistory: int)
    requires maxHistory >= 0
    ensures var t := Truncate(h, maxHistory);
            |t| <= |h| && t == h[|h| - |t|..]
            && (maxHistory > 0 ==> |t| == if |h| < 2 * maxHistory then |h| else 2 * maxHistory)
            && (maxHistory == 0 ==> t == h)
  {
  }

  /** `add_message`: creates the session if the id is unknown, appends the
      turn and keeps only the latest `2 * max_conversation_history`
      entries. */
  function AddMessage(m: Sessions, sid: string, role: string, content: string, stamp: string,
                      now: int, newId: string, maxHistory: int): (r: Added)
    ensures newId != "" ==> (r.ok <==> sid in m || sid != "")
    ensures r.sessions.Keys == m.Keys + (if sid in m then {} else if sid != "" then {sid} else {newId})
    ensures forall k :: k in m && k != sid && k != newId ==> r.sessions[k] == m[k]
    ensures sid in m || sid != "" ==> forall k :: k in m && k != sid ==> r.sessions[k] == m[k]
    ensures sid !in m && sid != "" ==> r.sessions[sid].createdAt == now && r.sessions[sid].lastAccessed == now
    ensures sid !in m && sid == "" && newId != "" ==> !r.ok && r.sessions[newId] == SessionData([], now, now)
    ensures r.ok ==> sid in r.sessions
                     && r.sessions[sid].history ==
                        Truncate((if sid in m then m[sid].history else []) + [Turn(role, content, stamp)], maxHistory)
    ensures r.ok && sid in m ==> r.sessions[sid].lastAccessed == m[sid].lastAccessed
                                 && r.sessions[sid].createdAt == m[sid].createdAt
  {
    var m1 := if sid !in m then GetOrCreateSession(m, Some(sid), newId, now).sessions else m;
    if sid !in m1 then Added(m1, false)
    else
      var h := m1[sid].history + [Turn(role, content, stamp)];
      Added(m1[sid := m1[sid].(history := Truncate(h, maxHistory))], true)
  }

  /** With a limit that is not negative the truncated history ends with
      the entry just appended, and a positive limit bounds its length. */
  lemma TruncateEndsWith(h: seq<Turn>, x: Turn, maxHistory: int)
    requires maxHistory >= 0
    ensures var t := Truncate(h + [x], maxHistory);
            |t| >= 1 && (maxHistory > 0 ==> |t| <= 2 * maxHistory) && t[|t| - 1] == x
  {
    var t := Truncate(h + [x], maxHistory);
    TruncateKeepsRecent(h + [x], maxHistory);
    assert t[|t| - 1] == (h + [x])[|h + [x]| - 1];
  }

  /** After `add_message` with a positive limit the history holds at most
      `2 * max` entries and ends with the new turn. */
  lemma AddMessageBounded(m: Sessions, sid: string, role: string, content: string, stamp: string,
                          now: int, newId: string, maxHistory: int)
    requires maxHistory > 0
    requires AddMessage(m, sid, role, content, stamp, now, newId, maxHistory).ok
    ensures |AddMessage(m, sid, role, content, stamp, now, newId, maxHistory).sessions[sid].history| <= 2 * maxHistory
  {
    TruncateEndsWith(if sid in m then m[sid].history else [], Turn(role, content, stamp), maxHistory);
  }

  /** Every history holds at most `2 * max` entries. */
  predicate Bounded(m: Sessions, maxHistory: int) {
    forall k :: k in m ==> |m[k].history| <= 2 * maxHistory
  }

  /** The bound is an invariant of the session store for a positive limit. */
  lemma BoundedInvariant(m: Sessions, sid: Option<string>, id: string, role: string, content: string,
                         stamp: string, now: int, newId: string, maxHistory: int)
    requires maxHistory > 0 && Bounded(m, maxHistory)
    ensures Bounded(GetOrCreateSession(m, sid, newId, now).sessions, maxHistory)
    ensures Bounded(AddMessage(m, id, role, content, stamp, now, newId, maxHistory).sessions, maxHistory)
  {
    var r := AddMessage(m, id, role, content, stamp, now, newId, maxHistory);
    if r.ok {
      AddMessageBounded(m, id, role, content, stamp, now, newId, maxHistory);
    }
    forall k | k in r.sessions ensures |r.sessions[k].history| <= 2 * maxHistory {
      if k !in m || k == id || k == newId {
      }
    }
  }

  /** `get_history`: the history of a known session, `[]` otherwise. */
  function GetHistory(m: Sessions, sid: string): (h: seq<Turn>)
    ensures sid !in m ==> h == []
    ensures sid in m ==> h == m[sid].history
  {
    if sid in m then m[sid].history else []
  }

  /** A message just added is the last entry of the history read back. */
  lemma HistoryAfterAdd(m: Sessions, sid: string, role: string, content: string, stamp: string,
                        now: int, newId: string, maxHistory: int)
    requires maxHistory >= 0
    requires AddMessage(m, sid, role, content, stamp, now, newId, maxHistory).ok
    ensures var h := GetHistory(AddMessage(m, sid, role, content, stamp, now, newId, maxHistory).sessions, sid);
            |h| >= 1 && h[|h| - 1] == Turn(role, content, stamp)
  {
    TruncateEndsWith(if sid in m then m[sid].history else [], Turn(role, content, stamp), maxHistory);
  }

  // ---------------------------------------------------------------------
  // cleanup_old_sessions

  /** A session idle for longer than the timeout, in seconds. */
  predicate Expired(d: SessionData, now: int, timeout: int) {
    now - d.lastAccessed > timeout * MicrosPerSecond
  }

  datatype Cleaned = Cleaned(sessions: Sessions, removed: nat)

  /** `cleanup_old_sessions`: drops the expired sessions and reports how
      many there were. */
  function CleanupOldSessions(m: Sessions, now: int, timeout: int): (r: Cleaned)
    ensures forall k :: k in r.sessions <==> k in m && !Expired(m[k], now, timeout)
    ensures forall k :: k in r.sessions ==> r.sessions[k] == m[k]
    ensures r.removed == |m.Keys| - |r.sessions.Keys|
  {
    var kept := map k | k in m && !Expired(m[k], now, timeout) :: m[k];
    var expired := set k | k in m && Expired(m[k], now, timeout);
    assert m.Keys == kept.Keys + expired;
    assert kept.Keys * expired == {};
    Cleaned(kept, |expired|)
  }

  /** The bound is strict: a session idle for exactly the timeout stays. */
  lemma IdleExactlyTimeoutKept(m: Sessions, k: string, now: int, timeout: int)
    requires k in m && now - m[k].lastAccessed == timeout * MicrosPerSecond
    ensures k in CleanupOldSessions(m, now, timeout).sessions
  {
  }

  /** A second cleanup at the same time removes nothing. */
  lemma CleanupIdempotent(m: Sessions, now: int, timeout: int)
    ensures var r := CleanupOldSessions(m, now, timeout);
            CleanupOldSessions(r.sessions, now, timeout) == Cleaned(r.sessions, 0)
  {
    var r := CleanupOldSessions(m, now, timeout);
    var r2 := CleanupOldSessions(r.sessions, now, timeout);
    assert r2.sessions == r.sessions;
  }
}
