/** The chat API's Redis-backed session manager: session records, the
    per-user and global session indexes (Redis lists), creation with per-user
    eviction, lookup with expiry, update, close, delete, agent switching and the
    cleanup sweep.

    The store is abstract: `records` are the `session:{id}` JSON values, and the
    indexes are the `user_sessions:{user}` lists and the `session_index` list,
    each head first (Redis `LPUSH` adds at the head). A missing list reads as
    empty. Times are integer seconds and `now` is a parameter; the uuid of a new
    session is a parameter. */
module SessionStore {
  import opened Wrappers
  import Seqs

  const MAX_SESSION_DURATION := 7200
  const MAX_SESSIONS_PER_USER := 5
  const SESSION_IDLE_TIMEOUT := 1800

  datatype AgentType = AI | Human

  datatype Status = Active | Idle | Closed | Expired

  datatype AgentSwitch = AgentSwitch(from: AgentType, to: AgentType, reason: Option<string>, timestamp: int)

  /** `session_metadata`: the agent switch log once one was started, and the other entries. */
  datatype Metadata = Metadata(agentSwitches: Option<seq<AgentSwitch>>, entries: map<string, string>)

  const EMPTY_METADATA := Metadata(None, map[])

  datatype Session = Session(
    sessionId: string, userId: string, conversationId: Option<int>, agentType: AgentType, status: Status,
    context: map<string, string>, metadata: Metadata,
    createdAt: int, updatedAt: int, lastActivityAt: int, expiresAt: Option<int>)

  datatype Store = Store(records: map<string, Session>, userIndex: map<string, seq<string>>, globalIndex: seq<string>)

  /** The two `SessionException`s a lookup-based operation raises: the
      session is not found, or the agent switch failed. */
  datatype SessionError = SessionNotFound(sessionId: string) | SwitchFailed(sessionId: string)

  function UserList(st: Store, user: string): seq<string> {
    if user in st.userIndex then st.userIndex[user] else []
  }

  /** Every record is stored under its own session id, as `_save_session` keys it. */
  ghost predicate WellKeyed(st: Store) {
    forall x :: x in st.records ==> st.records[x].sessionId == x
  }

  predicate IsExpired(s: Session, now: int) {
    s.expiresAt.Some? && now > s.expiresAt.value
  }

  predicate IsIdle(s: Session, now: int) {
    now - s.lastActivityAt > SESSION_IDLE_TIMEOUT
  }

  // ---------------------------------------------------------------------------
  // Index removal

  /** Push each of `items`, in order, at the head of `list` (repeated `LPUSH`). */
  function PushAll(list: seq<string>, items: seq<string>): seq<string>
    decreases |items|
  {
    if |items| == 0 then list else PushAll([items[0]] + list, items[1..])
  }

  lemma {:induction false} PushAllReverses(list: seq<string>, items: seq<string>)
    ensures PushAll(list, items) == Seqs.Reverse(items) + list
    decreases |items|
  {
    if |items| > 0 {
      PushAllReverses([items[0]] + list, items[1..]);
      assert Seqs.Reverse(items) == Seqs.Reverse(items[1..]) + [items[0]];
    }
  }

  /** `_remove_from_user_sessions` / `_remove_from_session_index` as written:
      read the list, drop the first occurrence, delete the key, then `LPUSH` the
      remaining ids one by one, which rebuilds the list back to front. */
  function RemoveFromListAsWritten(ids: seq<string>, id: string): (r: seq<string>)
    ensures id !in ids ==> r == ids
    ensures id in ids ==> r == Seqs.Reverse(Seqs.RemoveFirst(ids, id))
  {
    if id in ids then
      PushAllReverses([], Seqs.RemoveFirst(ids, id));
      PushAll([], Seqs.RemoveFirst(ids, id))
    else ids
  }

  /** Removing the newest of three sessions turns the remaining two around:
      the index no longer lists them newest first. */
  lemma RemovalReversesOrder()
    ensures RemoveFromListAsWritten(["s3", "s2", "s1"], "s3") == ["s1", "s2"]
  {
    assert Seqs.RemoveFirst(["s3", "s2", "s1"], "s3") == ["s2", "s1"];
  }

  /** Index removal as intended (Redis `LREM key 1 id`): the first occurrence is
      cut out and the other ids keep their order. */
  function RemoveFromList(ids: seq<string>, id: string): (r: seq<string>)
    ensures id !in ids ==> r == ids
    ensures id in ids ==> r == ids[..Seqs.FirstIndex(ids, id)] + ids[Seqs.FirstIndex(ids, id) + 1..]
  {
    if id in ids then
      Seqs.RemoveFirstCutsOut(ids, id);
      Seqs.RemoveFirst(ids, id)
    else ids
  }

  /** Exactly one occurrence of the id leaves the list. */
  lemma RemoveFromListMultiset(ids: seq<string>, id: string)
    ensures multiset(RemoveFromList(ids, id)) == multiset(ids) - multiset{id}
  {
    Seqs.RemoveFirstMultiset(ids, id);
  }

  function WithoutInUserIndex(st: Store, user: string, id: string): (r: Store)
    ensures r.records == st.records && r.globalIndex == st.globalIndex
    ensures UserList(r, user) == RemoveFromList(UserList(st, user), id)
    ensures forall u :: u != user ==> UserList(r, u) == UserList(st, u)
  {
    if id in UserList(st, user) then st.(userIndex := st.userIndex[user := RemoveFromList(UserList(st, user), id)])
    else st
  }

  function WithoutInGlobalIndex(st: Store, id: string): (r: Store)
    ensures r.records == st.records && r.userIndex == st.userIndex
    ensures r.globalIndex == RemoveFromList(st.globalIndex, id)
  {
    st.(globalIndex := RemoveFromList(st.globalIndex, id))
  }

  // ---------------------------------------------------------------------------
  // Lookup and close, as written

  /** `get_session` as written: an expired session is handed to `close_session`,
      which starts with `get_session` on the same id. The recursion only ends at
      the interpreter's recursion limit, whose error is caught and turned into
      `None`; `fuel` is that depth. */
  function GetSessionAsWritten(fuel: nat, st: Store, id: string, now: int): (r: (Option<Session>, Store))
    ensures r.1 == st
    ensures r.0.Some? <==> id in st.records && !IsExpired(st.records[id], now)
    ensures r.0.Some? ==> r.0.value == st.records[id]
    decreases fuel, 0
  {
    if id !in st.records then (None, st)
    else if !IsExpired(st.records[id], now) then (Some(st.records[id]), st)
    else if fuel == 0 then (None, st)
    else (None, CloseSessionAsWritten(fuel - 1, st, id, now).1)
  }

  /** `close_session` as written: look the session up through `get_session`;
      only a session it returns is marked closed and unindexed. */
  function CloseSessionAsWritten(fuel: nat, st: Store, id: string, now: int): (r: (bool, Store))
    ensures r.0 ==> id in st.records && !IsExpired(st.records[id], now)
    ensures id in st.records && !IsExpired(st.records[id], now) ==> r.0
    ensures !r.0 ==> r.1 == st
    ensures r.0 ==> r.1.records == st.records[id := st.records[id].(status := Closed, updatedAt := now)]
    ensures r.0 ==> UserList(r.1, st.records[id].userId) == RemoveFromListAsWritten(UserList(st, st.records[id].userId), id)
    ensures r.0 ==> forall u :: u != st.records[id].userId ==> UserList(r.1, u) == UserList(st, u)
    ensures r.0 ==> r.1.globalIndex == RemoveFromListAsWritten(st.globalIndex, id)
    decreases fuel, 1
  {
    var (found, st1) := GetSessionAsWritten(fuel, st, id, now);
    if found.None? then (false, st1)
    else
      var s := found.value.(status := Closed, updatedAt := now);
      var st2 := st1.(records := st1.records[id := s]);
      (true, st2.(userIndex := st2.userIndex[s.userId := RemoveFromListAsWritten(UserList(st2, s.userId), id)],
                  globalIndex := RemoveFromListAsWritten(st2.globalIndex, id)))
  }

  /** The lazy close never happens: at every recursion depth, looking up or
      closing an expired session returns nothing and leaves the store as it was,
      so the session stays in both indexes with its old status. */
  lemma {:induction false} ExpiredSessionNeverClosed(fuel: nat, st: Store, id: string, now: int)
    requires id in st.records && IsExpired(st.records[id], now)
    ensures GetSessionAsWritten(fuel, st, id, now) == (None, st)
    ensures CloseSessionAsWritten(fuel, st, id, now) == (false, st)
    decreases fuel
  {
    if fuel > 0 {
      ExpiredSessionNeverClosed(fuel - 1, st, id, now);
    }
  }

  // ---------------------------------------------------------------------------
  // Lookup and close, as intended

  /** Take `id` out of `user`'s index and out of the global index. */
  function Unindex(st: Store, user: string, id: string): (r: Store)
    ensures r.records == st.records
    ensures UserList(r, user) == RemoveFromList(UserList(st, user), id)
    ensures forall u :: u != user ==> UserList(r, u) == UserList(st, u)
    ensures r.globalIndex == RemoveFromList(st.globalIndex, id)
  {
    WithoutInGlobalIndex(WithoutInUserIndex(st, user, id), id)
  }

  /** `close_session` as intended: a stored session is marked closed, whether or
      not it has expired, and leaves both indexes. */
  function CloseSession(st: Store, id: string, now: int): (r: (bool, Store))
    ensures r.0 <==> id in st.records
    ensures !r.0 ==> r.1 == st
    ensures r.0 ==> r.1.records == st.records[id := st.records[id].(status := Closed, updatedAt := now)]
    ensures r.0 ==> UserList(r.1, st.records[id].userId) == RemoveFromList(UserList(st, st.records[id].userId), id)
    ensures r.0 ==> forall u :: u != st.records[id].userId ==> UserList(r.1, u) == UserList(st, u)
    ensures r.0 ==> r.1.globalIndex == RemoveFromList(st.globalIndex, id)
  {
    if id !in st.records then (false, st)
    else
      var user := st.records[id].userId;
      var marked := st.(records := st.records[id := st.records[id].(status := Closed, updatedAt := now)]);
      assert UserList(marked, user) == UserList(st, user);
      assert forall u :: UserList(marked, u) == UserList(st, u);
      (true, Unindex(marked, user, id))
  }

  /** `get_session` as intended: an expired session is closed and not returned.
      Status is not checked, so a closed session that has not expired is returned. */
  function GetSession(st: Store, id: string, now: int): (r: (Option<Session>, Store))
    ensures r.0.Some? <==> id in st.records && !IsExpired(st.records[id], now)
    ensures r.0.Some? ==> r.0.value == st.records[id] && r.1 == st
    ensures id !in st.records ==> r.1 == st
    ensures id in st.records && IsExpired(st.records[id], now) ==>
      r.1 == CloseSession(st, id, now).1 && r.1.records[id].status == Closed
  {
    if id !in st.records then (None, st)
    else if IsExpired(st.records[id], now) then (None, CloseSession(st, id, now).1)
    else (Some(st.records[id]), st)
  }

  /** A closed session is still handed out until it expires. */
  lemma ClosedSessionStillReturned(st: Store, id: string, now: int)
    requires id in st.records && st.records[id].status == Closed && !IsExpired(st.records[id], now)
    ensures GetSession(st, id, now).0 == Some(st.records[id])
  {
  }

  /** `b` is `a` with some sessions marked closed at `now`, and nothing else
      about the records changed. */
  ghost predicate ClosesOnly(a: Store, b: Store, now: int) {
    && b.records.Keys == a.records.Keys
    && forall x :: x in a.records ==>
         b.records[x] == a.records[x] || b.records[x] == a.records[x].(status := Closed, updatedAt := now)
  }

  lemma ClosesOnlyTransitive(a: Store, b: Store, c: Store, now: int)
    requires ClosesOnly(a, b, now) && ClosesOnly(b, c, now)
    ensures ClosesOnly(a, c, now)
  {
  }

  /** Lookup at most closes the session it was asked for, and only when that
      session has expired. */
  lemma GetSessionClosesOnly(st: Store, id: string, now: int)
    ensures ClosesOnly(st, GetSession(st, id, now).1, now)
    ensures forall x :: x in st.records && (x != id || !IsExpired(st.records[x], now)) ==>
      GetSession(st, id, now).1.records[x] == st.records[x]
  {
    var r := GetSession(st, id, now).1;
    if id in st.records && IsExpired(st.records[id], now) {
      assert r.records == st.records[id := st.records[id].(status := Closed, updatedAt := now)];
      assert r.records.Keys == st.records.Keys;
      forall x | x in st.records
        ensures r.records[x] == st.records[x] || r.records[x] == st.records[x].(status := Closed, updatedAt := now)
      {
      }
    } else {
      assert r == st;
    }
  }

  // ---------------------------------------------------------------------------
  // Listing a user's sessions

  /** The unexpired sessions stored under `ids`, in order: what listing yields. */
  function LiveSessions(st: Store, ids: seq<string>, now: int): (r: seq<Session>)
    ensures |r| <= |ids|
    ensures forall i :: 0 <= i < |r| ==> !IsExpired(r[i], now)
    ensures WellKeyed(st) ==> forall i :: 0 <= i < |r| ==> r[i].sessionId in st.records && st.records[r[i].sessionId] == r[i]
    ensures WellKeyed(st) ==> forall i :: 0 <= i < |r| ==> r[i].sessionId in ids
  {
    if |ids| == 0 then []
    else
      var head := if ids[0] in st.records && !IsExpired(st.records[ids[0]], now) then [st.records[ids[0]]] else [];
      var rest := LiveSessions(st, ids[1..], now);
      assert forall i :: |head| <= i < |head| + |rest| ==> (head + rest)[i] == rest[i - |head|];
      head + rest
  }

  /** Closing sessions does not change which sessions are live, nor their records. */
  lemma {:induction false} LiveSessionsStable(a: Store, b: Store, ids: seq<string>, now: int)
    requires ClosesOnly(a, b, now)
    requires forall x :: x in a.records && !IsExpired(a.records[x], now) ==> b.records[x] == a.records[x]
    ensures LiveSessions(b, ids, now) == LiveSessions(a, ids, now)
    decreases |ids|
  {
    if |ids| > 0 {
      LiveSessionsStable(a, b, ids[1..], now);
    }
  }

  /** Walk `ids`, looking each one up; the walk closes the expired ones. */
  function CollectSessions(st: Store, ids: seq<string>, now: int): (r: (seq<Session>, Store))
    ensures r.0 == LiveSessions(st, ids, now)
    ensures ClosesOnly(st, r.1, now)
    ensures forall x :: x in st.records && !IsExpired(st.records[x], now) ==> r.1.records[x] == st.records[x]
    decreases |ids|
  {
    if |ids| == 0 then ([], st)
    else
      var (found, st1) := GetSession(st, ids[0], now);
      GetSessionClosesOnly(st, ids[0], now);
      var (rest, st2) := CollectSessions(st1, ids[1..], now);
      LiveSessionsStable(st, st1, ids[1..], now);
      ClosesOnlyTransitive(st, st1, st2, now);
      (if found.Some? then [found.value] + rest else rest, st2)
  }

  /** `get_user_sessions`, corrected: the user's unexpired sessions, in index
      order; the corrected lookup closes the expired ones on the way. */
  function GetUserSessions(st: Store, user: string, now: int): (r: (seq<Session>, Store))
    ensures r.0 == LiveSessions(st, UserList(st, user), now)
    ensures ClosesOnly(st, r.1, now)
  {
    CollectSessions(st, UserList(st, user), now)
  }

  /** No id of `ids` names a stored session that has expired. */
  ghost predicate NoneExpired(st: Store, ids: seq<string>, now: int) {
    forall i :: 0 <= i < |ids| && ids[i] in st.records ==> !IsExpired(st.records[ids[i]], now)
  }

  /** With nothing expired on the list, the corrected walk changes nothing. */
  lemma {:induction false} CollectUnexpiredKeepsStore(st: Store, ids: seq<string>, now: int)
    requires NoneExpired(st, ids, now)
    ensures CollectSessions(st, ids, now).1 == st
    decreases |ids|
  {
    if |ids| > 0 {
      assert GetSession(st, ids[0], now).1 == st;
      assert NoneExpired(st, ids[1..], now) by {
        forall i | 0 <= i < |ids[1..]| && ids[1..][i] in st.records
          ensures !IsExpired(st.records[ids[1..][i]], now)
        {
          assert ids[1..][i] == ids[i + 1];
        }
      }
      CollectUnexpiredKeepsStore(st, ids[1..], now);
    }
  }

  /** The walk as written: each lookup is `get_session` as written, which
      never changes the store, so expired sessions stay ACTIVE and indexed. */
  function CollectSessionsAsWritten(fuel: nat, st: Store, ids: seq<string>, now: int): (r: (seq<Session>, Store))
    ensures r.0 == LiveSessions(st, ids, now)
    ensures r.1 == st
    decreases |ids|
  {
    if |ids| == 0 then ([], st)
    else
      var (found, st1) := GetSessionAsWritten(fuel, st, ids[0], now);
      var (rest, st2) := CollectSessionsAsWritten(fuel, st1, ids[1..], now);
      (if found.Some? then [found.value] + rest else rest, st2)
  }

  /** `get_user_sessions` as written: the same sessions as the corrected
      listing, and the store is left as it was. */
  function GetUserSessionsAsWritten(fuel: nat, st: Store, user: string, now: int): (r: (seq<Session>, Store))
    ensures r.0 == GetUserSessions(st, user, now).0
    ensures r.1 == st
  {
    CollectSessionsAsWritten(fuel, st, UserList(st, user), now)
  }

  // ---------------------------------------------------------------------------
  // Creation

  /** The position `min(sessions, key=created_at)` picks: the first session
      with the smallest creation time. */
  function OldestIndex(sessions: seq<Session>): (i: nat)
    requires |sessions| > 0
    ensures i < |sessions|
    ensures forall j :: 0 <= j < |sessions| ==> sessions[i].createdAt <= sessions[j].createdAt
    ensures forall j :: 0 <= j < i ==> sessions[j].createdAt > sessions[i].createdAt
  {
    if |sessions| == 1 then 0
    else
      var i := OldestIndex(sessions[..|sessions| - 1]);
      if sessions[|sessions| - 1].createdAt < sessions[i].createdAt then |sessions| - 1 else i
  }

  /** Every session of `live` is the record stored under its own id. */
  ghost predicate Listed(st: Store, live: seq<Session>) {
    forall i :: 0 <= i < |live| ==> live[i].sessionId in st.records && st.records[live[i].sessionId] == live[i]
  }

  /** Eviction, corrected: when the user is at the limit, the oldest of `live`
      is closed and leaves both indexes, which keep the order of the other ids;
      every other record is kept. Below the limit nothing changes. */
  function EvictIfFull(st: Store, live: seq<Session>, now: int): (r: Store)
    ensures r.records.Keys == st.records.Keys
    ensures |live| < MAX_SESSIONS_PER_USER ==> r == st
    ensures |live| >= MAX_SESSIONS_PER_USER && Listed(st, live) ==>
      var o := live[OldestIndex(live)];
      && r.records == st.records[o.sessionId := o.(status := Closed, updatedAt := now)]
      && UserList(r, o.userId) == RemoveFromList(UserList(st, o.userId), o.sessionId)
      && (forall u :: u != o.userId ==> UserList(r, u) == UserList(st, u))
      && r.globalIndex == RemoveFromList(st.globalIndex, o.sessionId)
  {
    if |live| >= MAX_SESSIONS_PER_USER then CloseSession(st, live[OldestIndex(live)].sessionId, now).1 else st
  }

  /** Eviction as written: the close is `close_session` as written, so a live
      oldest session is closed and both indexes come out reversed, and an
      expired one is not closed at all. */
  function EvictIfFullAsWritten(fuel: nat, st: Store, live: seq<Session>, now: int): (r: Store)
    ensures r.records.Keys == st.records.Keys
    ensures |live| < MAX_SESSIONS_PER_USER ==> r == st
    ensures |live| >= MAX_SESSIONS_PER_USER && Listed(st, live) && IsExpired(live[OldestIndex(live)], now) ==> r == st
    ensures |live| >= MAX_SESSIONS_PER_USER && Listed(st, live) && !IsExpired(live[OldestIndex(live)], now) ==>
      var o := live[OldestIndex(live)];
      && r.records == st.records[o.sessionId := o.(status := Closed, updatedAt := now)]
      && UserList(r, o.userId) == RemoveFromListAsWritten(UserList(st, o.userId), o.sessionId)
      && (forall u :: u != o.userId ==> UserList(r, u) == UserList(st, u))
      && r.globalIndex == RemoveFromListAsWritten(st.globalIndex, o.sessionId)
  {
    if |live| >= MAX_SESSIONS_PER_USER then CloseSessionAsWritten(fuel, st, live[OldestIndex(live)].sessionId, now).1 else st
  }

  /** Save a new session and push its id at the head of its user's index and of the global index. */
  function Insert(st: Store, s: Session): (r: Store)
    ensures r.records == st.records[s.sessionId := s]
    ensures UserList(r, s.userId) == [s.sessionId] + UserList(st, s.userId)
    ensures r.globalIndex == [s.sessionId] + st.globalIndex
  {
    Store(st.records[s.sessionId := s], st.userIndex[s.userId := [s.sessionId] + UserList(st, s.userId)], [s.sessionId] + st.globalIndex)
  }

  /** The record `create_session` saves. */
  function NewSession(id: string, user: string, agent: AgentType, metadata: Option<Metadata>, now: int): Session {
    Session(id, user, None, agent, Active, map[], metadata.GetOr(EMPTY_METADATA), now, now, now, Some(now + MAX_SESSION_DURATION))
  }

  /** `create_session`, corrected: list the user's live sessions; when there
      are `MAX_SESSIONS_PER_USER` or more, close the oldest; then save the new
      active session, expiring `max_session_duration` from now, and push its id
      at the head of the user's index and of the global index. The listing and
      the eviction are the corrected ones. */
  function CreateSession(st: Store, id: string, user: string, agent: AgentType, metadata: Option<Metadata>, now: int): (r: (Session, Store))
    ensures r.0.sessionId == id && r.0.userId == user && r.0.agentType == agent
    ensures r.0.status == Active && r.0.expiresAt == Some(now + MAX_SESSION_DURATION)
    ensures r.0.createdAt == now && r.0.lastActivityAt == now
    ensures r.0.metadata == metadata.GetOr(EMPTY_METADATA)
    ensures id in r.1.records && r.1.records[id] == r.0
    ensures |UserList(r.1, user)| > 0 && UserList(r.1, user)[0] == id
    ensures |r.1.globalIndex| > 0 && r.1.globalIndex[0] == id
    ensures r.1.records.Keys == st.records.Keys + {id}
  {
    var s := NewSession(id, user, agent, metadata, now);
    var listed := GetUserSessions(st, user, now);
    (s, Insert(EvictIfFull(listed.1, listed.0, now), s))
  }

  /** `create_session` as written: the listing and the eviction go through
      `get_session` and `close_session` as written. Below the limit only the
      new session is added, so expired sessions stay ACTIVE and indexed; at
      the limit the oldest live session is closed and the remaining ids of both
      indexes come out reversed behind the new one. */
  function CreateSessionAsWritten(fuel: nat, st: Store, id: string, user: string, agent: AgentType, metadata: Option<Metadata>, now: int): (r: (Session, Store))
    ensures r.0 == CreateSession(st, id, user, agent, metadata, now).0
    ensures |LiveSessions(st, UserList(st, user), now)| < MAX_SESSIONS_PER_USER ==> r.1 == Insert(st, r.0)
    ensures WellKeyed(st) && |LiveSessions(st, UserList(st, user), now)| >= MAX_SESSIONS_PER_USER ==>
      var live := LiveSessions(st, UserList(st, user), now);
      var o := live[OldestIndex(live)];
      && r.1.records == st.records[o.sessionId := o.(status := Closed, updatedAt := now)][id := r.0]
      && r.1.globalIndex == [id] + RemoveFromListAsWritten(st.globalIndex, o.sessionId)
      && (o.userId == user ==> UserList(r.1, user) == [id] + RemoveFromListAsWritten(UserList(st, user), o.sessionId))
  {
    var s := NewSession(id, user, agent, metadata, now);
    var listed := GetUserSessionsAsWritten(fuel, st, user, now);
    assert listed == (LiveSessions(st, UserList(st, user), now), st);
    (s, Insert(EvictIfFullAsWritten(fuel, listed.1, listed.0, now), s))
  }

  /** Where the two creations part: for a full user with nothing expired on
      their list, both close the same oldest session, but as written the ids
      left behind the new one in the user's index come out in reverse order. */
  lemma CreateReversesIndexAsWritten(fuel: nat, st: Store, id: string, user: string, agent: AgentType, metadata: Option<Metadata>, now: int)
    requires WellKeyed(st) && NoneExpired(st, UserList(st, user), now)
    requires |LiveSessions(st, UserList(st, user), now)| >= MAX_SESSIONS_PER_USER
    requires var live := LiveSessions(st, UserList(st, user), now); live[OldestIndex(live)].userId == user
    ensures CreateSessionAsWritten(fuel, st, id, user, agent, metadata, now).1.records == CreateSession(st, id, user, agent, metadata, now).1.records
    ensures UserList(CreateSessionAsWritten(fuel, st, id, user, agent, metadata, now).1, user)
         == [id] + Seqs.Reverse(UserList(CreateSession(st, id, user, agent, metadata, now).1, user)[1..])
  {
    var ids := UserList(st, user);
    var live := LiveSessions(st, ids, now);
    var o := live[OldestIndex(live)];
    CollectUnexpiredKeepsStore(st, ids, now);
    assert GetUserSessions(st, user, now) == (live, st);
    var evicted := EvictIfFull(st, live, now);
    assert UserList(evicted, user) == RemoveFromList(ids, o.sessionId);
    assert o.sessionId in ids;
    assert RemoveFromList(ids, o.sessionId) == Seqs.RemoveFirst(ids, o.sessionId);
    var corrected := CreateSession(st, id, user, agent, metadata, now).1;
    assert UserList(corrected, user) == [id] + RemoveFromList(ids, o.sessionId);
    assert UserList(corrected, user)[1..] == Seqs.RemoveFirst(ids, o.sessionId);
  }

  /** Eviction closes the oldest listed session and keeps the other listed ones. */
  lemma EvictIfFullFacts(st: Store, live: seq<Session>, now: int)
    requires forall i :: 0 <= i < |live| ==> live[i].sessionId in st.records && st.records[live[i].sessionId] == live[i]
    ensures EvictIfFull(st, live, now).records.Keys == st.records.Keys
    ensures |live| >= MAX_SESSIONS_PER_USER ==>
      EvictIfFull(st, live, now).records[live[OldestIndex(live)].sessionId] == live[OldestIndex(live)].(status := Closed, updatedAt := now)
    ensures forall i :: 0 <= i < |live| && (|live| < MAX_SESSIONS_PER_USER || live[i].sessionId != live[OldestIndex(live)].sessionId) ==>
      EvictIfFull(st, live, now).records[live[i].sessionId] == live[i]
  {
    if |live| >= MAX_SESSIONS_PER_USER {
      var o := live[OldestIndex(live)];
      assert EvictIfFull(st, live, now).records == st.records[o.sessionId := o.(status := Closed, updatedAt := now)];
    }
  }

  /** Eviction: with `MAX_SESSIONS_PER_USER` or more live sessions, exactly the
      oldest of them is closed and every other one is kept as it was; with fewer,
      no live session is touched. */
  lemma {:induction false} CreateEvictsOldest(st: Store, id: string, user: string, agent: AgentType, metadata: Option<Metadata>, now: int)
    requires WellKeyed(st) && id !in st.records
    ensures var live := LiveSessions(st, UserList(st, user), now);
      var r := CreateSession(st, id, user, agent, metadata, now).1;
      && (|live| >= MAX_SESSIONS_PER_USER ==>
            r.records[live[OldestIndex(live)].sessionId] == live[OldestIndex(live)].(status := Closed, updatedAt := now))
      && (forall i :: 0 <= i < |live| && (|live| < MAX_SESSIONS_PER_USER || live[i].sessionId != live[OldestIndex(live)].sessionId) ==>
            r.records[live[i].sessionId] == live[i])
  {
    var live := LiveSessions(st, UserList(st, user), now);
    var listed := GetUserSessions(st, user, now);
    var st1 := listed.1;
    CollectSessionsKeepsLive(st, UserList(st, user), now);
    assert forall i :: 0 <= i < |live| ==> live[i].sessionId in st1.records && st1.records[live[i].sessionId] == live[i] && live[i].sessionId != id;
    EvictIfFullFacts(st1, live, now);
    var st2 := EvictIfFull(st1, live, now);
    var created := CreateSession(st, id, user, agent, metadata, now);
    assert created.1.records == st2.records[id := created.0];
    UpdateElsewhere(st2.records, id, created.0, live);
  }

  /** Storing under an id that no listed session has keeps every listed
      session's record. */
  lemma UpdateElsewhere(records: map<string, Session>, id: string, s: Session, live: seq<Session>)
    requires forall i :: 0 <= i < |live| ==> live[i].sessionId != id
    ensures forall i :: 0 <= i < |live| && live[i].sessionId in records ==>
              records[id := s][live[i].sessionId] == records[live[i].sessionId]
  {
  }

  lemma CollectSessionsKeepsLive(st: Store, ids: seq<string>, now: int)
    ensures forall x :: x in st.records && !IsExpired(st.records[x], now) ==>
      x in CollectSessions(st, ids, now).1.records && CollectSessions(st, ids, now).1.records[x] == st.records[x]
  {
  }

  // ---------------------------------------------------------------------------
  // Updates

  /** `SessionUpdate`: the fields to overwrite; `None` leaves a field alone. */
  datatype Update = Update(agentType: Option<AgentType>, status: Option<Status>, context: Option<map<string, string>>, metadata: Option<Metadata>)

  /** `update_session`, corrected: a missing or expired session raises
      `SessionException`, and the corrected lookup closes an expired one;
      otherwise every given field is copied and both timestamps become `now`. */
  function UpdateSession(st: Store, id: string, upd: Update, now: int): (r: (Result<Session, SessionError>, Store))
    ensures r.0.Err? <==> id !in st.records || IsExpired(st.records[id], now)
    ensures r.0.Err? ==> r.0.error == SessionNotFound(id)
    ensures r.0.Err? && id !in st.records ==> r.1 == st
    ensures r.0.Err? && id in st.records ==> r.1 == CloseSession(st, id, now).1
    ensures r.0.Ok? ==> var prev := st.records[id]; var s := r.0.value;
      && s.agentType == upd.agentType.GetOr(prev.agentType) && s.status == upd.status.GetOr(prev.status)
      && s.context == upd.context.GetOr(prev.context) && s.metadata == upd.metadata.GetOr(prev.metadata)
      && s.updatedAt == now && s.lastActivityAt == now
      && s.sessionId == prev.sessionId && s.userId == prev.userId && s.createdAt == prev.createdAt && s.expiresAt == prev.expiresAt
    ensures r.0.Ok? ==> r.1 == st.(records := st.records[id := r.0.value])
  {
    var (found, st1) := GetSession(st, id, now);
    if found.None? then (Err(SessionNotFound(id)), st1)
    else
      var prev := found.value;
      var s := prev.(agentType := upd.agentType.GetOr(prev.agentType), status := upd.status.GetOr(prev.status),
                    context := upd.context.GetOr(prev.context), metadata := upd.metadata.GetOr(prev.metadata),
                    updatedAt := now, lastActivityAt := now);
      (Ok(s), st1.(records := st1.records[id := s]))
  }

  /** Applying the same update twice at the same moment is the same as applying it once. */
  lemma UpdateIsIdempotent(st: Store, id: string, upd: Update, now: int)
    requires UpdateSession(st, id, upd, now).0.Ok?
    ensures UpdateSession(UpdateSession(st, id, upd, now).1, id, upd, now) == UpdateSession(st, id, upd, now)
  {
    var first := UpdateSession(st, id, upd, now);
    var s1 := first.0.value;
    assert first.1.records[id] == s1;
    var again := s1.(agentType := upd.agentType.GetOr(s1.agentType), status := upd.status.GetOr(s1.status),
                     context := upd.context.GetOr(s1.context), metadata := upd.metadata.GetOr(s1.metadata),
                     updatedAt := now, lastActivityAt := now);
    assert again == s1;
    assert first.1.(records := first.1.records[id := again]) == first.1;
  }

  /** `update_activity`, corrected: refresh the last activity of a live
      session; the corrected lookup closes an expired one. */
  function UpdateActivity(st: Store, id: string, now: int): (r: (bool, Store))
    ensures r.0 <==> id in st.records && !IsExpired(st.records[id], now)
    ensures r.0 ==> r.1 == st.(records := st.records[id := st.records[id].(lastActivityAt := now)])
    ensures !r.0 && id !in st.records ==> r.1 == st
    ensures !r.0 && id in st.records ==> r.1 == CloseSession(st, id, now).1
  {
    var (found, st1) := GetSession(st, id, now);
    if found.None? then (false, st1)
    else (true, st1.(records := st1.records[id := found.value.(lastActivityAt := now)]))
  }

  /** `update_session` as written: on a live session it is the corrected
      update; a missing or expired session raises and the store is unchanged,
      so an expired session stays ACTIVE and indexed. */
  function UpdateSessionAsWritten(fuel: nat, st: Store, id: string, upd: Update, now: int): (r: (Result<Session, SessionError>, Store))
    ensures r.0.Err? <==> id !in st.records || IsExpired(st.records[id], now)
    ensures r.0.Err? ==> r.0.error == SessionNotFound(id) && r.1 == st
    ensures r.0.Ok? ==> r == UpdateSession(st, id, upd, now)
  {
    var (found, st1) := GetSessionAsWritten(fuel, st, id, now);
    if found.None? then (Err(SessionNotFound(id)), st1)
    else
      var prev := found.value;
      var s := prev.(agentType := upd.agentType.GetOr(prev.agentType), status := upd.status.GetOr(prev.status),
                    context := upd.context.GetOr(prev.context), metadata := upd.metadata.GetOr(prev.metadata),
                    updatedAt := now, lastActivityAt := now);
      (Ok(s), st1.(records := st1.records[id := s]))
  }

  /** `update_activity` as written: on a live session it is the corrected
      refresh; otherwise `False` and the store is unchanged. */
  function UpdateActivityAsWritten(fuel: nat, st: Store, id: string, now: int): (r: (bool, Store))
    ensures r.0 <==> id in st.records && !IsExpired(st.records[id], now)
    ensures !r.0 ==> r.1 == st
    ensures r.0 ==> r == UpdateActivity(st, id, now)
  {
    var (found, st1) := GetSessionAsWritten(fuel, st, id, now);
    if found.None? then (false, st1)
    else (true, st1.(records := st1.records[id := found.value.(lastActivityAt := now)]))
  }

  /** Where the halves part on an expired session: the corrected update,
      refresh and listing close it, while as written each of them leaves the
      store, and so the session's ACTIVE record and its index entries, as they
      were. */
  lemma ExpiredStaysActiveAsWritten(fuel: nat, st: Store, id: string, upd: Update, now: int)
    requires id in st.records && IsExpired(st.records[id], now)
    ensures UpdateSession(st, id, upd, now).1.records[id].status == Closed
    ensures UpdateSessionAsWritten(fuel, st, id, upd, now) == (Err(SessionNotFound(id)), st)
    ensures UpdateActivity(st, id, now).1.records[id].status == Closed
    ensures UpdateActivityAsWritten(fuel, st, id, now) == (false, st)
    ensures GetUserSessions(st, st.records[id].userId, now).1.records[id].status == Closed || id !in UserList(st, st.records[id].userId)
    ensures GetUserSessionsAsWritten(fuel, st, st.records[id].userId, now).1 == st
  {
    var user := st.records[id].userId;
    if id in UserList(st, user) {
      CollectExpiredCloses(st, UserList(st, user), id, now);
    }
  }

  /** The corrected walk closes every expired session on the list. */
  lemma {:induction false} CollectExpiredCloses(st: Store, ids: seq<string>, id: string, now: int)
    requires id in st.records && IsExpired(st.records[id], now) && id in ids
    ensures CollectSessions(st, ids, now).1.records[id].status == Closed
    decreases |ids|
  {
    var st1 := GetSession(st, ids[0], now).1;
    GetSessionClosesOnly(st, ids[0], now);
    var st2 := CollectSessions(st1, ids[1..], now).1;
    if ids[0] == id {
      assert st1.records[id].status == Closed;
    } else {
      assert st1.records[id] == st.records[id];
      assert id in ids[1..];
      CollectExpiredCloses(st1, ids[1..], id, now);
    }
  }

  /** The switch log of a session, empty when none was started. */
  function Switches(s: Session): seq<AgentSwitch> {
    s.metadata.agentSwitches.GetOr([])
  }

  /** `switch_agent`, corrected: set the new agent type, bump both
      timestamps, and append one `{from, to, reason, timestamp}` record to the
      switch log, starting the log when the metadata has none. The old agent
      type is read as the stored value, not through `.value`. */
  function SwitchAgent(st: Store, id: string, agent: AgentType, reason: Option<string>, now: int): (r: (Result<Session, SessionError>, Store))
    ensures r.0.Err? <==> id !in st.records || IsExpired(st.records[id], now)
    ensures r.0.Ok? ==> var prev := st.records[id]; var s := r.0.value;
      && s.agentType == agent
      && Switches(s) == Switches(prev) + [AgentSwitch(prev.agentType, agent, reason, now)]
      && s.metadata.entries == prev.metadata.entries
      && s.updatedAt == now && s.lastActivityAt == now && s.status == prev.status
    ensures r.0.Ok? ==> r.1 == st.(records := st.records[id := r.0.value])
  {
    var (found, st1) := GetSession(st, id, now);
    if found.None? then (Err(SessionNotFound(id)), st1)
    else
      var prev := found.value;
      var log := Switches(prev) + [AgentSwitch(prev.agentType, agent, reason, now)];
      var s := prev.(agentType := agent, updatedAt := now, lastActivityAt := now,
                    metadata := prev.metadata.(agentSwitches := Some(log)));
      (Ok(s), st1.(records := st1.records[id := s]))
  }

  /** With the corrected switch, two switches in a row log two records, in
      order, and end on the second agent. */
  lemma TwoSwitchesLogTwo(st: Store, id: string, a: AgentType, b: AgentType, now: int, later: int)
    requires id in st.records && !IsExpired(st.records[id], later) && now <= later
    ensures var r1 := SwitchAgent(st, id, a, None, now);
      var r2 := SwitchAgent(r1.1, id, b, None, later);
      && r2.0.Ok?
      && Switches(r2.0.value) == Switches(st.records[id]) + [AgentSwitch(st.records[id].agentType, a, None, now), AgentSwitch(a, b, None, later)]
  {
  }

  /** `switch_agent` as written. Records are loaded through the pydantic base
      model, which keeps enum fields as their plain values (`use_enum_values`),
      so the old agent type is a `str` and reading its `.value` for the log
      record raises `AttributeError`; the handler re-raises it as
      `SessionException`. The changes made to the loaded copy are never saved,
      so no call succeeds and none changes the store. */
  function SwitchAgentAsWritten(fuel: nat, st: Store, id: string, agent: AgentType, reason: Option<string>, now: int): (r: (Result<Session, SessionError>, Store))
    ensures r.0.Err? && r.1 == st
    ensures r.0.error == SessionNotFound(id) <==> id !in st.records || IsExpired(st.records[id], now)
    ensures r.0.error == SwitchFailed(id) <==> id in st.records && !IsExpired(st.records[id], now)
  {
    var (found, st1) := GetSessionAsWritten(fuel, st, id, now);
    assert st1 == st by {
      if id in st.records && IsExpired(st.records[id], now) {
        ExpiredSessionNeverClosed(fuel, st, id, now);
      }
    }
    if found.None? then (Err(SessionNotFound(id)), st1)
    else (Err(SwitchFailed(id)), st1)
  }

  /** Where the two part: on a live session the corrected switch succeeds and
      logs the switch, while the switch as written raises and logs nothing. */
  lemma LiveSwitchFailsAsWritten(fuel: nat, st: Store, id: string, agent: AgentType, reason: Option<string>, now: int)
    requires id in st.records && !IsExpired(st.records[id], now)
    ensures SwitchAgent(st, id, agent, reason, now).0.Ok?
    ensures |Switches(SwitchAgent(st, id, agent, reason, now).0.value)| == |Switches(st.records[id])| + 1
    ensures SwitchAgentAsWritten(fuel, st, id, agent, reason, now) == (Err(SwitchFailed(id)), st)
  {
  }

  /** `delete_session`, corrected: a live session's record is removed and its
      id leaves both indexes, which keep the order of the other ids. An expired
      session is closed by the corrected lookup and not deleted. */
  function DeleteSession(st: Store, id: string, now: int): (r: (bool, Store))
    ensures r.0 <==> id in st.records && !IsExpired(st.records[id], now)
    ensures r.0 ==> r.1.records == st.records - {id}
    ensures r.0 ==> r.1.globalIndex == RemoveFromList(st.globalIndex, id)
    ensures r.0 ==> UserList(r.1, st.records[id].userId) == RemoveFromList(UserList(st, st.records[id].userId), id)
  {
    var (found, st1) := GetSession(st, id, now);
    if found.None? then (false, st1)
    else
      var st2 := st1.(records := st1.records - {id});
      (true, WithoutInGlobalIndex(WithoutInUserIndex(st2, found.value.userId, id), id))
  }

  /** A deleted session can no longer be looked up. */
  lemma DeletedIsGone(st: Store, id: string, now: int)
    requires DeleteSession(st, id, now).0
    ensures GetSession(DeleteSession(st, id, now).1, id, now).0 == None
  {
  }

  /** `delete_session` as written: the lookup is `get_session` as written, and
      both indexes are rebuilt by the reversing removal. */
  function DeleteSessionAsWritten(fuel: nat, st: Store, id: string, now: int): (r: (bool, Store))
    ensures r.0 <==> id in st.records && !IsExpired(st.records[id], now)
    ensures !r.0 ==> r.1 == st
    ensures r.0 ==> r.1.records == st.records - {id}
    ensures r.0 ==> r.1.globalIndex == RemoveFromListAsWritten(st.globalIndex, id)
    ensures r.0 ==> UserList(r.1, st.records[id].userId) == RemoveFromListAsWritten(UserList(st, st.records[id].userId), id)
  {
    var (found, st1) := GetSessionAsWritten(fuel, st, id, now);
    if found.None? then
      assert st1 == st by {
        if id in st.records {
          ExpiredSessionNeverClosed(fuel, st, id, now);
        }
      }
      (false, st1)
    else
      var user := found.value.userId;
      var st2 := st1.(records := st1.records - {id});
      (true, st2.(userIndex := st2.userIndex[user := RemoveFromListAsWritten(UserList(st2, user), id)],
                  globalIndex := RemoveFromListAsWritten(st2.globalIndex, id)))
  }

  /** The delete as written and the corrected one remove the same record and
      leave the same ids indexed, but as written the global index comes out
      reversed. */
  lemma DeleteReversesIndexAsWritten(fuel: nat, st: Store, id: string, now: int)
    requires id in st.records && !IsExpired(st.records[id], now) && id in st.globalIndex
    ensures DeleteSessionAsWritten(fuel, st, id, now).1.records == DeleteSession(st, id, now).1.records
    ensures DeleteSessionAsWritten(fuel, st, id, now).1.globalIndex == Seqs.Reverse(DeleteSession(st, id, now).1.globalIndex)
  {
    Seqs.RemoveFirstCutsOut(st.globalIndex, id);
  }

  // ---------------------------------------------------------------------------
  // Cleanup

  /** A session the sweep removes: absent, expired, or idle beyond the timeout. */
  predicate Stale(st: Store, id: string, now: int) {
    id !in st.records || IsExpired(st.records[id], now) || IsIdle(st.records[id], now)
  }

  function CountStale(st: Store, ids: seq<string>, now: int): nat {
    if |ids| == 0 then 0
    else CountStale(st, ids[..|ids| - 1], now) + (if Stale(st, ids[|ids| - 1], now) then 1 else 0)
  }

  /** The corrected sweep's step for one id of the snapshot: whether it
      counts, and the store after it. */
  function SweepOne(st: Store, id: string, now: int): (r: (bool, Store))
  {
    var (found, next) := GetSession(st, id, now);
    if found.None? then (true, WithoutInGlobalIndex(next, id))
    else if IsIdle(found.value, now) then (true, CloseSession(next, id, now).1)
    else (false, next)
  }

  lemma SweepOneFacts(st: Store, id: string, now: int)
    ensures SweepOne(st, id, now).0 <==> Stale(st, id, now)
    ensures ClosesOnly(st, SweepOne(st, id, now).1, now)
    ensures forall x :: x in st.records && !Stale(st, x, now) ==> SweepOne(st, id, now).1.records[x] == st.records[x]
    ensures id in st.records && Stale(st, id, now) ==> SweepOne(st, id, now).1.records[id].status == Closed
  {
    GetSessionClosesOnly(st, id, now);
    var next := GetSession(st, id, now).1;
    if id in st.records && !IsExpired(st.records[id], now) && IsIdle(st.records[id], now) {
      assert next == st;
      var r := CloseSession(next, id, now).1;
      assert r.records == st.records[id := st.records[id].(status := Closed, updatedAt := now)];
    }
  }

  /** Closing sessions does not change which ids are stale. */
  lemma StaleStable(a: Store, b: Store, now: int)
    requires ClosesOnly(a, b, now)
    ensures forall x :: Stale(b, x, now) == Stale(a, x, now)
  {
    forall x
      ensures Stale(b, x, now) == Stale(a, x, now)
    {
      if x in a.records {
        assert b.records[x].expiresAt == a.records[x].expiresAt && b.records[x].lastActivityAt == a.records[x].lastActivityAt;
      }
    }
  }

  /** What the sweep has achieved after the first `i` ids of the snapshot. */
  ghost predicate SweptUpTo(st: Store, r: Store, ids: seq<string>, i: nat, now: int)
    requires i <= |ids|
  {
    && ClosesOnly(st, r, now)
    && (forall x :: x in st.records && !Stale(st, x, now) ==> r.records[x] == st.records[x])
    && (forall j :: 0 <= j < i && ids[j] in st.records && Stale(st, ids[j], now) ==> r.records[ids[j]].status == Closed)
  }

  lemma {:induction false} SweepStep(st: Store, r: Store, ids: seq<string>, i: nat, now: int)
    requires i < |ids| && SweptUpTo(st, r, ids, i, now)
    ensures SweptUpTo(st, SweepOne(r, ids[i], now).1, ids, i + 1, now)
    ensures SweepOne(r, ids[i], now).0 <==> Stale(st, ids[i], now)
  {
    var next := SweepOne(r, ids[i], now).1;
    SweepOneFacts(r, ids[i], now);
    StaleStable(st, r, now);
    ClosesOnlyTransitive(st, r, next, now);
    assert ClosesOnly(st, next, now);
    assert forall x :: x in st.records && !Stale(st, x, now) ==> next.records[x] == st.records[x];
    forall j | 0 <= j < i + 1 && ids[j] in st.records && Stale(st, ids[j], now)
      ensures next.records[ids[j]].status == Closed
    {
      if j < i {
        assert r.records[ids[j]].status == Closed;
        assert next.records[ids[j]] == r.records[ids[j]] || next.records[ids[j]] == r.records[ids[j]].(status := Closed, updatedAt := now);
      } else {
        assert Stale(r, ids[i], now);
      }
    }
    assert SweptUpTo(st, next, ids, i + 1, now);
    assert Stale(r, ids[i], now) == Stale(st, ids[i], now);
  }

  /** `cleanup_expired_sessions`, corrected, one sweep over a snapshot of the
      global index: an id whose lookup yields nothing (absent, or expired and
      so closed by the corrected lookup) leaves the index; an idle session is
      closed; each counts once. */
  method CleanupExpiredSessions(st: Store, now: int) returns (count: nat, r: Store)
    ensures count == CountStale(st, st.globalIndex, now)
    ensures r.records.Keys == st.records.Keys
    ensures forall x :: x in st.globalIndex && x in st.records && Stale(st, x, now) ==> r.records[x].status == Closed
    ensures forall x :: x in st.records && !Stale(st, x, now) ==> r.records[x] == st.records[x]
  {
    var ids := st.globalIndex;
    count, r := 0, st;
    var i := 0;
    while i < |ids|
      invariant 0 <= i <= |ids|
      invariant count == CountStale(st, ids[..i], now)
      invariant SweptUpTo(st, r, ids, i, now)
    {
      SweepStep(st, r, ids, i, now);
      var step := SweepOne(r, ids[i], now);
      if step.0 {
        count := count + 1;
      }
      r := step.1;
      assert ids[..i + 1][..i] == ids[..i];
      i := i + 1;
    }
    assert ids[..i] == ids;
    forall x | x in st.globalIndex && x in st.records && Stale(st, x, now)
      ensures r.records[x].status == Closed
    {
      var j :| 0 <= j < |ids| && ids[j] == x;
    }
  }

  // ---------------------------------------------------------------------------
  // Cleanup, as written

  /** A session the sweep as written closes: stored, not expired, and idle.
      An expired session is never closed, because its lookup never returns. */
  predicate ClosedByCleanupAsWritten(st: Store, id: string, now: int) {
    id in st.records && !IsExpired(st.records[id], now) && IsIdle(st.records[id], now)
  }

  /** The sweep step as written: the lookup and the close are the as-written
      ones, and the index removal reverses. */
  function SweepOneAsWritten(fuel: nat, st: Store, id: string, now: int): (r: (bool, Store))
  {
    var (found, next) := GetSessionAsWritten(fuel, st, id, now);
    if found.None? then (true, next.(globalIndex := RemoveFromListAsWritten(next.globalIndex, id)))
    else if IsIdle(found.value, now) then (true, CloseSessionAsWritten(fuel, next, id, now).1)
    else (false, next)
  }

  /** One step as written counts the same ids as the corrected step, but
      closes only an idle unexpired session: an expired one keeps its record. */
  lemma SweepOneAsWrittenFacts(fuel: nat, st: Store, id: string, now: int)
    ensures SweepOneAsWritten(fuel, st, id, now).0 <==> Stale(st, id, now)
    ensures ClosesOnly(st, SweepOneAsWritten(fuel, st, id, now).1, now)
    ensures forall x :: x in st.records && !ClosedByCleanupAsWritten(st, x, now) ==> SweepOneAsWritten(fuel, st, id, now).1.records[x] == st.records[x]
    ensures ClosedByCleanupAsWritten(st, id, now) ==> SweepOneAsWritten(fuel, st, id, now).1.records[id].status == Closed
  {
    if id in st.records && IsExpired(st.records[id], now) {
      ExpiredSessionNeverClosed(fuel, st, id, now);
    }
  }

  /** Closing sessions keeps every record's expiry and last activity, so it
      does not change which sessions the sweep as written closes. */
  lemma ClosedByCleanupStable(a: Store, b: Store, now: int)
    requires ClosesOnly(a, b, now)
    ensures forall x :: ClosedByCleanupAsWritten(b, x, now) == ClosedByCleanupAsWritten(a, x, now)
  {
    forall x
      ensures ClosedByCleanupAsWritten(b, x, now) == ClosedByCleanupAsWritten(a, x, now)
    {
      if x in a.records {
        assert b.records[x].expiresAt == a.records[x].expiresAt && b.records[x].lastActivityAt == a.records[x].lastActivityAt;
      }
    }
  }

  /** What the sweep as written has achieved after the first `i` ids. */
  ghost predicate SweptUpToAsWritten(st: Store, r: Store, ids: seq<string>, i: nat, now: int)
    requires i <= |ids|
  {
    && ClosesOnly(st, r, now)
    && (forall x :: x in st.records && !ClosedByCleanupAsWritten(st, x, now) ==> r.records[x] == st.records[x])
    && (forall j :: 0 <= j < i && ClosedByCleanupAsWritten(st, ids[j], now) ==> r.records[ids[j]].status == Closed)
  }

  lemma {:induction false} SweepStepAsWritten(fuel: nat, st: Store, r: Store, ids: seq<string>, i: nat, now: int)
    requires i < |ids| && SweptUpToAsWritten(st, r, ids, i, now)
    ensures SweptUpToAsWritten(st, SweepOneAsWritten(fuel, r, ids[i], now).1, ids, i + 1, now)
    ensures SweepOneAsWritten(fuel, r, ids[i], now).0 <==> Stale(st, ids[i], now)
  {
    var next := SweepOneAsWritten(fuel, r, ids[i], now).1;
    SweepOneAsWrittenFacts(fuel, r, ids[i], now);
    StaleStable(st, r, now);
    ClosedByCleanupStable(st, r, now);
    ClosesOnlyTransitive(st, r, next, now);
    assert forall x :: x in st.records && !ClosedByCleanupAsWritten(st, x, now) ==> next.records[x] == st.records[x];
    forall j | 0 <= j < i + 1 && ClosedByCleanupAsWritten(st, ids[j], now)
      ensures next.records[ids[j]].status == Closed
    {
      if j < i {
        assert r.records[ids[j]].status == Closed;
        assert next.records[ids[j]] == r.records[ids[j]] || next.records[ids[j]] == r.records[ids[j]].(status := Closed, updatedAt := now);
      } else {
        assert ClosedByCleanupAsWritten(r, ids[i], now);
      }
    }
    assert SweptUpToAsWritten(st, next, ids, i + 1, now);
  }

  /** `cleanup_expired_sessions` as written: it counts the same ids as the
      corrected sweep, closes the idle unexpired sessions of the snapshot, and
      leaves every other record as it was; in particular an expired session
      stays ACTIVE and keeps its record. */
  method CleanupExpiredSessionsAsWritten(fuel: nat, st: Store, now: int) returns (count: nat, r: Store)
    ensures count == CountStale(st, st.globalIndex, now)
    ensures r.records.Keys == st.records.Keys
    ensures forall x :: x in st.globalIndex && ClosedByCleanupAsWritten(st, x, now) ==> r.records[x].status == Closed
    ensures forall x :: x in st.records && !ClosedByCleanupAsWritten(st, x, now) ==> r.records[x] == st.records[x]
  {
    var ids := st.globalIndex;
    count, r := 0, st;
    var i := 0;
    while i < |ids|
      invariant 0 <= i <= |ids|
      invariant count == CountStale(st, ids[..i], now)
      invariant SweptUpToAsWritten(st, r, ids, i, now)
    {
      SweepStepAsWritten(fuel, st, r, ids, i, now);
      var step := SweepOneAsWritten(fuel, r, ids[i], now);
      if step.0 {
        count := count + 1;
      }
      r := step.1;
      assert ids[..i + 1][..i] == ids[..i];
      i := i + 1;
    }
    assert ids[..i] == ids;
    forall x | x in st.globalIndex && ClosedByCleanupAsWritten(st, x, now)
      ensures r.records[x].status == Closed
    {
      var j :| 0 <= j < |ids| && ids[j] == x;
    }
  }
}
