/** The chat API's WebSocket connection manager: the connection table, the
    session and user indexes, authentication, targeted sends, broadcast and the
    two background sweeps (one iteration each).

    Socket I/O is abstracted: whether a send to a connection succeeds is the
    `sendSucceeds` flag of its socket. Optional ids are strings with `""` for
    "none", which is also how Python's truthiness treats them. The clock is the
    `now` parameter. */
module WsRegistry {
  import opened Wrappers
  import MultiIndex

  const WS_CONNECTION_TIMEOUT := 300

  datatype Socket = Socket(sendSucceeds: bool)

  datatype Conn = Conn(sessionId: string, userId: string, authenticated: bool, lastActivity: int, socket: Socket)

  datatype Manager = Manager(conns: map<string, Conn>, sessions: MultiIndex.Index, users: MultiIndex.Index)

  /** Deleting an index key that is not there (Python's `KeyError`). */
  datatype RegistryError = MissingIndexKey(key: string)

  const EMPTY := Manager(map[], map[], map[])

  /** `Connection.is_expired`: a missing or zero timeout means the configured
      default; a connection is expired once strictly more than the timeout has
      passed since its last activity. */
  function IsExpired(c: Conn, now: int, timeout: Option<int>): (b: bool)
    ensures timeout.None? || timeout == Some(0) ==> (b <==> c.lastActivity < now - WS_CONNECTION_TIMEOUT)
    ensures timeout.Some? && timeout.value != 0 ==> (b <==> c.lastActivity < now - timeout.value)
  {
    var t := if timeout.None? || timeout.value == 0 then WS_CONNECTION_TIMEOUT else timeout.value;
    now - c.lastActivity > t
  }

  /** Expiry is permanent until the connection is active again. */
  lemma ExpiryIsMonotone(c: Conn, now: int, later: int, timeout: Option<int>)
    requires now <= later && IsExpired(c, now, timeout)
    ensures IsExpired(c, later, timeout)
  {
  }

  /** The key a connection is filed under in the session index or in the user index. */
  function KeyOf(c: Conn, bySession: bool): string {
    if bySession then c.sessionId else c.userId
  }

  /** One index agrees with the table: every filed id is a live connection
      carrying that key, every live connection with a key is filed under it,
      no set is empty, and nothing is filed under the empty key. */
  ghost predicate Filed(ix: MultiIndex.Index, conns: map<string, Conn>, bySession: bool) {
    && MultiIndex.NoEmptySets(ix) && "" !in ix
    && (forall k, c :: k in ix && c in ix[k] ==> c in conns && KeyOf(conns[c], bySession) == k)
    && (forall c :: c in conns && KeyOf(conns[c], bySession) != "" ==>
          KeyOf(conns[c], bySession) in ix && c in ix[KeyOf(conns[c], bySession)])
  }

  /** The registry invariant: both indexes agree with the table. */
  ghost predicate Inv(m: Manager) {
    Filed(m.sessions, m.conns, true) && Filed(m.users, m.conns, false)
  }

  /** The one-sided half of `Filed`: no set is empty, and every live
      connection with a key is in that key's set. Stale entries, ids filed
      under a key they no longer carry, are allowed. */
  ghost predicate Reaches(ix: MultiIndex.Index, conns: map<string, Conn>, bySession: bool) {
    && MultiIndex.NoEmptySets(ix)
    && (forall c :: c in conns && KeyOf(conns[c], bySession) != "" ==>
          KeyOf(conns[c], bySession) in ix && c in ix[KeyOf(conns[c], bySession)])
  }

  /** What the registry keeps as written: both indexes reach every live
      connection. Re-authentication as written leaves stale entries, so this
      holds where `Inv` no longer does. */
  ghost predicate Covered(m: Manager) {
    Reaches(m.sessions, m.conns, true) && Reaches(m.users, m.conns, false)
  }

  /** The set `id` is filed under at key `k` given the connection table: its own
      key, when it is live and has one. */
  function OwnEntry(conns: map<string, Conn>, bySession: bool, id: string, k: string): set<string> {
    if id in conns && k == KeyOf(conns[id], bySession) && k != "" then {id} else {}
  }

  /** Changing one connection's record, and moving it in the index from its old
      key to its new one, keeps an index in agreement with the table. Every
      operation below is an instance. */
  lemma {:induction false} RefileKeepsFiled(ix: MultiIndex.Index, conns: map<string, Conn>, ix': MultiIndex.Index, conns': map<string, Conn>, bySession: bool, id: string)
    requires Filed(ix, conns, bySession)
    requires MultiIndex.NoEmptySets(ix') && "" !in ix'
    requires forall c :: c in conns && c != id ==> c in conns'
    requires forall c :: c in conns' && c != id ==> c in conns && KeyOf(conns'[c], bySession) == KeyOf(conns[c], bySession)
    requires forall k :: MultiIndex.Members(ix', k) ==
               (MultiIndex.Members(ix, k) - OwnEntry(conns, bySession, id, k)) + OwnEntry(conns', bySession, id, k)
    ensures Filed(ix', conns', bySession)
  {
    forall k, c | k in ix' && c in ix'[k]
      ensures c in conns' && KeyOf(conns'[c], bySession) == k
    {
      assert c in MultiIndex.Members(ix', k);
      if c !in OwnEntry(conns', bySession, id, k) {
        assert c in MultiIndex.Members(ix, k);
      }
    }
    forall c | c in conns' && KeyOf(conns'[c], bySession) != ""
      ensures KeyOf(conns'[c], bySession) in ix' && c in ix'[KeyOf(conns'[c], bySession)]
    {
      var k := KeyOf(conns'[c], bySession);
      if c != id {
        assert c in MultiIndex.Members(ix, k);
      }
      assert c in MultiIndex.Members(ix', k);
    }
  }

  /** In an index that agrees with the table, an id is filed at most under its own key. */
  lemma FiledOnlyUnderOwnKey(ix: MultiIndex.Index, conns: map<string, Conn>, bySession: bool, id: string)
    requires Filed(ix, conns, bySession)
    ensures forall k :: id in MultiIndex.Members(ix, k) ==> id in OwnEntry(conns, bySession, id, k)
  {
  }

  /** `connect`: a new, unauthenticated connection with no session or user. */
  function Connect(m: Manager, id: string, now: int, socket: Socket): (r: Manager)
    ensures r.conns.Keys == m.conns.Keys + {id}
    ensures r.conns[id] == Conn("", "", false, now, socket)
    ensures forall c :: c in m.conns && c != id ==> r.conns[c] == m.conns[c]
    ensures r.sessions == m.sessions && r.users == m.users
  {
    m.(conns := m.conns[id := Conn("", "", false, now, socket)])
  }

  /** A fresh id keeps the registry consistent. */
  lemma ConnectPreservesInv(m: Manager, id: string, now: int, socket: Socket)
    requires Inv(m) && id !in m.conns
    ensures Inv(Connect(m, id, now, socket))
  {
    var r := Connect(m, id, now, socket);
    RefileKeepsFiled(m.sessions, m.conns, r.sessions, r.conns, true, id);
    RefileKeepsFiled(m.users, m.conns, r.users, r.conns, false, id);
  }

  /** The index step of `disconnect` for one key: a set that becomes empty is
      deleted with `del`, which raises when the key was never there. */
  function Unfile(ix: MultiIndex.Index, key: string, id: string): (r: Result<MultiIndex.Index, RegistryError>)
    ensures key == "" ==> r == Ok(ix)
    ensures key != "" && key !in ix ==> r == Err(MissingIndexKey(key))
    ensures key != "" && key in ix ==> r == Ok(MultiIndex.Remove(ix, key, id))
  {
    if key == "" then Ok(ix)
    else if key !in ix then Err(MissingIndexKey(key))
    else Ok(MultiIndex.Remove(ix, key, id))
  }

  /** `disconnect`: an unknown id is a no-op; otherwise the connection leaves its
      session set and its user set, and is then dropped. */
  function Disconnect(m: Manager, id: string): (r: Result<Manager, RegistryError>)
    ensures id !in m.conns ==> r == Ok(m)
    ensures r.Ok? ==> r.value.conns == m.conns - {id}
    ensures r.Ok? && id in m.conns && m.conns[id].sessionId != "" ==>
      id !in MultiIndex.Members(r.value.sessions, m.conns[id].sessionId)
    ensures r.Ok? && id in m.conns && m.conns[id].userId != "" ==>
      id !in MultiIndex.Members(r.value.users, m.conns[id].userId)
  {
    if id !in m.conns then Ok(m)
    else
      var c := m.conns[id];
      var sessions :- Unfile(m.sessions, c.sessionId, id);
      var users :- Unfile(m.users, c.userId, id);
      Ok(Manager(m.conns - {id}, sessions, users))
  }

  /** On a consistent registry `disconnect` never raises, keeps the registry
      consistent, leaves the id in no set, and a second call changes nothing. */
  lemma DisconnectUnderInv(m: Manager, id: string)
    requires Inv(m)
    ensures Disconnect(m, id).Ok?
    ensures Inv(Disconnect(m, id).value)
    ensures forall k :: id !in MultiIndex.Members(Disconnect(m, id).value.sessions, k)
    ensures forall k :: id !in MultiIndex.Members(Disconnect(m, id).value.users, k)
    ensures Disconnect(Disconnect(m, id).value, id) == Disconnect(m, id)
  {
    if id in m.conns {
      DisconnectKnown(m, id);
    } else {
      UnknownIsUnfiled(m, id);
    }
  }

  lemma DisconnectKnown(m: Manager, id: string)
    requires Inv(m) && id in m.conns
    ensures Disconnect(m, id).Ok?
    ensures Inv(Disconnect(m, id).value)
    ensures forall k :: id !in MultiIndex.Members(Disconnect(m, id).value.sessions, k)
    ensures forall k :: id !in MultiIndex.Members(Disconnect(m, id).value.users, k)
  {
    UnfileKeepsFiled(m.sessions, m.conns, true, id);
    UnfileKeepsFiled(m.users, m.conns, false, id);
    UnknownIsUnfiled(Disconnect(m, id).value, id);
  }

  /** The index step of `disconnect` on an index that agrees with the table
      succeeds, and the index then agrees with the table without the id. */
  lemma UnfileKeepsFiled(ix: MultiIndex.Index, conns: map<string, Conn>, bySession: bool, id: string)
    requires Filed(ix, conns, bySession) && id in conns
    ensures Unfile(ix, KeyOf(conns[id], bySession), id).Ok?
    ensures Filed(Unfile(ix, KeyOf(conns[id], bySession), id).value, conns - {id}, bySession)
  {
    var r := Unfile(ix, KeyOf(conns[id], bySession), id).value;
    RefileKeepsFiled(ix, conns, r, conns - {id}, bySession, id);
  }

  /** A consistent registry files only the connections it holds. */
  lemma UnknownIsUnfiled(m: Manager, id: string)
    requires Inv(m) && id !in m.conns
    ensures forall k :: id !in MultiIndex.Members(m.sessions, k)
    ensures forall k :: id !in MultiIndex.Members(m.users, k)
  {
    FiledOnlyUnderOwnKey(m.sessions, m.conns, true, id);
    FiledOnlyUnderOwnKey(m.users, m.conns, false, id);
  }

  /** A consistent registry is covered. */
  lemma InvIsCovered(m: Manager)
    requires Inv(m)
    ensures Covered(m)
  {
  }

  /** A new connection has no keys, so it keeps the registry covered. */
  lemma ConnectKeepsCovered(m: Manager, id: string, now: int, socket: Socket)
    requires Covered(m)
    ensures Covered(Connect(m, id, now, socket))
  {
    var r := Connect(m, id, now, socket);
    assert forall c :: c in r.conns && c != id ==> r.conns[c] == m.conns[c];
  }

  /** The index step of `disconnect` on an index that reaches every live
      connection finds the key it deletes from, and the index then reaches
      every connection that is left. */
  lemma UnfileKeepsReach(ix: MultiIndex.Index, conns: map<string, Conn>, bySession: bool, id: string)
    requires Reaches(ix, conns, bySession) && id in conns
    ensures Unfile(ix, KeyOf(conns[id], bySession), id).Ok?
    ensures Reaches(Unfile(ix, KeyOf(conns[id], bySession), id).value, conns - {id}, bySession)
  {
    var k := KeyOf(conns[id], bySession);
    var r := Unfile(ix, k, id).value;
    forall c | c in conns - {id} && KeyOf(conns[c], bySession) != ""
      ensures KeyOf(conns[c], bySession) in r && c in r[KeyOf(conns[c], bySession)]
    {
      var j := KeyOf(conns[c], bySession);
      assert c in MultiIndex.Members(ix, j);
      assert c in MultiIndex.Members(r, j);
    }
  }

  /** On a covered registry, stale entries included, `disconnect` never
      raises, keeps the registry covered, and takes the id out of the sets of
      its current session and user. */
  lemma DisconnectKeepsCovered(m: Manager, id: string)
    requires Covered(m)
    ensures Disconnect(m, id).Ok?
    ensures Covered(Disconnect(m, id).value)
  {
    if id in m.conns {
      UnfileKeepsReach(m.sessions, m.conns, true, id);
      UnfileKeepsReach(m.users, m.conns, false, id);
    }
  }

  /** `authenticate_connection` as written: the connection is filed under the
      new user, and under the new session when one is given, but is never taken
      out of the sets of the user and session it had before. */
  function AuthenticateAsWritten(m: Manager, id: string, userId: string, sessionId: string): (r: (bool, Manager))
    ensures !r.0 <==> id !in m.conns
    ensures !r.0 ==> r.1 == m
    ensures r.1.conns.Keys == m.conns.Keys
    ensures r.0 ==> r.1.conns[id].authenticated && r.1.conns[id].userId == userId
    ensures r.0 ==> id in MultiIndex.Members(r.1.users, userId)
    ensures r.0 && sessionId != "" ==> r.1.conns[id].sessionId == sessionId && id in MultiIndex.Members(r.1.sessions, sessionId)
    ensures r.0 ==> forall k :: MultiIndex.Members(m.sessions, k) <= MultiIndex.Members(r.1.sessions, k)
    ensures r.0 ==> forall k :: MultiIndex.Members(m.users, k) <= MultiIndex.Members(r.1.users, k)
  {
    if id !in m.conns then (false, m)
    else
      var c := m.conns[id];
      var c' := c.(authenticated := true, userId := userId, sessionId := if sessionId != "" then sessionId else c.sessionId);
      var sessions := if sessionId != "" then MultiIndex.Add(m.sessions, sessionId, id) else m.sessions;
      (true, Manager(m.conns[id := c'], sessions, MultiIndex.Add(m.users, userId, id)))
  }

  /** Re-authenticating one connection with another user and session leaves it
      filed under the first session; after `disconnect` the first session still
      lists a connection that no longer exists. */
  lemma StaleEntryAfterReauthentication()
    ensures var m0 := Connect(EMPTY, "c", 0, Socket(true));
      var m1 := AuthenticateAsWritten(m0, "c", "u1", "s1").1;
      var m2 := AuthenticateAsWritten(m1, "c", "u2", "s2").1;
      && !Inv(m2)
      && Disconnect(m2, "c").Ok?
      && "c" !in Disconnect(m2, "c").value.conns
      && "c" in MultiIndex.Members(Disconnect(m2, "c").value.sessions, "s1")
      && "c" in MultiIndex.Members(Disconnect(m2, "c").value.users, "u1")
  {
    var m0 := Connect(EMPTY, "c", 0, Socket(true));
    var m1 := AuthenticateAsWritten(m0, "c", "u1", "s1").1;
    var m2 := AuthenticateAsWritten(m1, "c", "u2", "s2").1;
    assert "c" in MultiIndex.Members(m2.sessions, "s1");
    assert "c" in MultiIndex.Members(m2.users, "u1");
    assert m2.conns["c"].sessionId == "s2";
    assert "s1" in m2.sessions && "c" in m2.sessions["s1"];
  }

  /** Re-authentication as written breaks `Inv` but keeps the registry
      covered: the connection is in the sets of its new keys. */
  lemma AuthenticateAsWrittenKeepsCovered(m: Manager, id: string, userId: string, sessionId: string)
    requires Covered(m)
    ensures Covered(AuthenticateAsWritten(m, id, userId, sessionId).1)
  {
    var r := AuthenticateAsWritten(m, id, userId, sessionId).1;
    if id in m.conns {
      forall c | c in r.conns && r.conns[c].sessionId != ""
        ensures r.conns[c].sessionId in r.sessions && c in r.sessions[r.conns[c].sessionId]
      {
        assert c in MultiIndex.Members(r.sessions, r.conns[c].sessionId);
      }
      forall c | c in r.conns && r.conns[c].userId != ""
        ensures r.conns[c].userId in r.users && c in r.users[r.conns[c].userId]
      {
        assert c in MultiIndex.Members(r.users, r.conns[c].userId);
      }
    }
  }

  /** Take a live connection out of the sets of its current session and user,
      and clear both fields. */
  function Detach(m: Manager, id: string): (r: Manager)
    requires id in m.conns
    ensures r.conns == m.conns[id := m.conns[id].(sessionId := "", userId := "")]
    ensures forall k :: MultiIndex.Members(r.sessions, k) == MultiIndex.Members(m.sessions, k) - (if k == m.conns[id].sessionId && k != "" then {id} else {})
    ensures forall k :: MultiIndex.Members(r.users, k) == MultiIndex.Members(m.users, k) - (if k == m.conns[id].userId && k != "" then {id} else {})
    ensures MultiIndex.NoEmptySets(m.sessions) ==> MultiIndex.NoEmptySets(r.sessions)
    ensures MultiIndex.NoEmptySets(m.users) ==> MultiIndex.NoEmptySets(r.users)
    ensures r.sessions.Keys <= m.sessions.Keys && r.users.Keys <= m.users.Keys
  {
    var c := m.conns[id];
    var sessions := if c.sessionId != "" then MultiIndex.Remove(m.sessions, c.sessionId, id) else m.sessions;
    var users := if c.userId != "" then MultiIndex.Remove(m.users, c.userId, id) else m.users;
    Manager(m.conns[id := c.(sessionId := "", userId := "")], sessions, users)
  }

  /** Store `c` for a connection and file it under its session and user, when present. */
  function Attach(m: Manager, id: string, c: Conn): (r: Manager)
    ensures r.conns == m.conns[id := c]
    ensures forall k :: MultiIndex.Members(r.sessions, k) == MultiIndex.Members(m.sessions, k) + (if k == c.sessionId && k != "" then {id} else {})
    ensures forall k :: MultiIndex.Members(r.users, k) == MultiIndex.Members(m.users, k) + (if k == c.userId && k != "" then {id} else {})
    ensures MultiIndex.NoEmptySets(m.sessions) ==> MultiIndex.NoEmptySets(r.sessions)
    ensures MultiIndex.NoEmptySets(m.users) ==> MultiIndex.NoEmptySets(r.users)
    ensures "" !in m.sessions ==> "" !in r.sessions
    ensures "" !in m.users ==> "" !in r.users
  {
    var sessions := if c.sessionId != "" then MultiIndex.Add(m.sessions, c.sessionId, id) else m.sessions;
    var users := if c.userId != "" then MultiIndex.Add(m.users, c.userId, id) else m.users;
    Manager(m.conns[id := c], sessions, users)
  }

  lemma DetachPreservesInv(m: Manager, id: string)
    requires Inv(m) && id in m.conns
    ensures Inv(Detach(m, id))
  {
    var r := Detach(m, id);
    DetachKeepsFiled(m.sessions, m.conns, true, id, r.sessions);
    DetachKeepsFiled(m.users, m.conns, false, id, r.users);
  }

  /** The index step of `Detach`. */
  lemma DetachKeepsFiled(ix: MultiIndex.Index, conns: map<string, Conn>, bySession: bool, id: string, ix': MultiIndex.Index)
    requires Filed(ix, conns, bySession) && id in conns
    requires MultiIndex.NoEmptySets(ix') && ix'.Keys <= ix.Keys
    requires forall k :: MultiIndex.Members(ix', k) ==
               MultiIndex.Members(ix, k) - (if k == KeyOf(conns[id], bySession) && k != "" then {id} else {})
    ensures Filed(ix', conns[id := conns[id].(sessionId := "", userId := "")], bySession)
  {
    var conns' := conns[id := conns[id].(sessionId := "", userId := "")];
    forall k
      ensures MultiIndex.Members(ix', k) ==
                (MultiIndex.Members(ix, k) - OwnEntry(conns, bySession, id, k)) + OwnEntry(conns', bySession, id, k)
    {
    }
    RefileKeepsFiled(ix, conns, ix', conns', bySession, id);
  }

  lemma AttachPreservesInv(m: Manager, id: string, c: Conn)
    requires Inv(m) && id in m.conns && m.conns[id].sessionId == "" && m.conns[id].userId == ""
    ensures Inv(Attach(m, id, c))
  {
    var r := Attach(m, id, c);
    AttachKeepsFiled(m.sessions, m.conns, true, id, c, r.sessions);
    AttachKeepsFiled(m.users, m.conns, false, id, c, r.users);
  }

  /** The index step of `Attach`, for a connection filed under no key. */
  lemma AttachKeepsFiled(ix: MultiIndex.Index, conns: map<string, Conn>, bySession: bool, id: string, c: Conn, ix': MultiIndex.Index)
    requires Filed(ix, conns, bySession) && id in conns && KeyOf(conns[id], bySession) == ""
    requires MultiIndex.NoEmptySets(ix') && "" !in ix'
    requires forall k :: MultiIndex.Members(ix', k) ==
               MultiIndex.Members(ix, k) + (if k == KeyOf(c, bySession) && k != "" then {id} else {})
    ensures Filed(ix', conns[id := c], bySession)
  {
    forall k
      ensures MultiIndex.Members(ix', k) ==
                (MultiIndex.Members(ix, k) - OwnEntry(conns, bySession, id, k)) + OwnEntry(conns[id := c], bySession, id, k)
    {
    }
    RefileKeepsFiled(ix, conns, ix', conns[id := c], bySession, id);
  }

  /** `authenticate_connection` as intended: the connection leaves the sets of
      its previous user and session before it is filed under the new ones, and an
      empty user id is not filed. */
  function Authenticate(m: Manager, id: string, userId: string, sessionId: string): (r: (bool, Manager))
    ensures !r.0 <==> id !in m.conns
    ensures !r.0 ==> r.1 == m
    ensures r.1.conns.Keys == m.conns.Keys
    ensures r.0 ==> r.1.conns[id].authenticated && r.1.conns[id].userId == userId
    ensures r.0 ==> r.1.conns[id].sessionId == (if sessionId != "" then sessionId else m.conns[id].sessionId)
    ensures r.0 ==> forall c :: c in m.conns && c != id ==> r.1.conns[c] == m.conns[c]
  {
    if id !in m.conns then (false, m)
    else
      var c := m.conns[id];
      var c' := c.(authenticated := true, userId := userId, sessionId := if sessionId != "" then sessionId else c.sessionId);
      (true, Attach(Detach(m, id), id, c'))
  }

  /** The corrected authentication keeps the registry consistent, so a later
      `disconnect` leaves no trace of the connection. */
  lemma {:induction false} AuthenticatePreservesInv(m: Manager, id: string, userId: string, sessionId: string)
    requires Inv(m)
    ensures Inv(Authenticate(m, id, userId, sessionId).1)
  {
    if id in m.conns {
      var c := m.conns[id];
      var c' := c.(authenticated := true, userId := userId, sessionId := if sessionId != "" then sessionId else c.sessionId);
      DetachPreservesInv(m, id);
      AttachPreservesInv(Detach(m, id), id, c');
    }
  }

  /** Re-authentication under the corrected rule moves the connection: it is
      filed under the new user and session and under no other. */
  lemma {:induction false} ReauthenticationMoves(m: Manager, id: string, userId: string, sessionId: string)
    requires Inv(m) && id in m.conns && userId != "" && sessionId != ""
    ensures var r := Authenticate(m, id, userId, sessionId).1;
      forall k :: (id in MultiIndex.Members(r.sessions, k) <==> k == sessionId) && (id in MultiIndex.Members(r.users, k) <==> k == userId)
  {
    var c := m.conns[id];
    var c' := c.(authenticated := true, userId := userId, sessionId := sessionId);
    var d := Detach(m, id);
    var r := Attach(d, id, c');
    assert r == Authenticate(m, id, userId, sessionId).1;
    forall k
      ensures (id in MultiIndex.Members(r.sessions, k) <==> k == sessionId) && (id in MultiIndex.Members(r.users, k) <==> k == userId)
    {
      assert id in MultiIndex.Members(m.sessions, k) ==> k in m.sessions && c.sessionId == k && k != "";
      assert id !in MultiIndex.Members(d.sessions, k);
      assert id in MultiIndex.Members(m.users, k) ==> k in m.users && c.userId == k && k != "";
      assert id !in MultiIndex.Members(d.users, k);
    }
  }

  // ---------------------------------------------------------------------------
  // Sending

  /** The connections among `targets` a send reaches: live ones whose socket accepts it. */
  function Delivered(m: Manager, targets: set<string>): set<string> {
    set c | c in targets && c in m.conns && m.conns[c].socket.sendSucceeds
  }

  /** `send_to_connection`: an unknown id fails; a successful send refreshes the
      connection's last activity. */
  function SendToConnection(m: Manager, id: string, now: int): (r: (bool, Manager))
    ensures r.0 <==> id in Delivered(m, {id})
    ensures r.0 ==> r.1 == m.(conns := m.conns[id := m.conns[id].(lastActivity := now)])
    ensures !r.0 ==> r.1 == m
  {
    if id !in m.conns || !m.conns[id].socket.sendSucceeds then (false, m)
    else (true, m.(conns := m.conns[id := m.conns[id].(lastActivity := now)]))
  }

  /** `r` is `m` after sending to the connections in `sent`. */
  ghost predicate SentTo(m: Manager, r: Manager, sent: set<string>, now: int) {
    && r.sessions == m.sessions && r.users == m.users && r.conns.Keys == m.conns.Keys
    && forall c :: c in m.conns ==>
         r.conns[c] == if c in sent then m.conns[c].(lastActivity := now) else m.conns[c]
  }

  lemma SendStep(m: Manager, r: Manager, done: set<string>, c: string, now: int)
    requires SentTo(m, r, Delivered(m, done), now) && c !in done
    ensures SentTo(m, SendToConnection(r, c, now).1, Delivered(m, done + {c}), now)
    ensures SendToConnection(r, c, now).0 <==> c in Delivered(m, {c})
    ensures |Delivered(m, done + {c})| == |Delivered(m, done)| + (if SendToConnection(r, c, now).0 then 1 else 0)
  {
    DeliveredStep(m, done, c);
  }

  /** Send to every id of `targets` in some order, counting successful sends. */
  method SendAll(m: Manager, targets: set<string>, now: int) returns (r: Manager, count: nat)
    ensures count == |Delivered(m, targets)|
    ensures r.sessions == m.sessions && r.users == m.users && r.conns.Keys == m.conns.Keys
    ensures forall c :: c in m.conns ==>
      r.conns[c] == if c in Delivered(m, targets) then m.conns[c].(lastActivity := now) else m.conns[c]
  {
    r, count := m, 0;
    var rest := targets;
    ghost var done: set<string> := {};
    while rest != {}
      invariant rest !! done && rest + done == targets
      invariant count == |Delivered(m, done)|
      invariant SentTo(m, r, Delivered(m, done), now)
      decreases |rest|
    {
      var c :| c in rest;
      SendStep(m, r, done, c, now);
      var step := SendToConnection(r, c, now);
      if step.0 {
        count := count + 1;
      }
      r := step.1;
      rest := rest - {c};
      done := done + {c};
    }
  }

  lemma DeliveredStep(m: Manager, done: set<string>, c: string)
    requires c !in done
    ensures Delivered(m, done + {c}) == Delivered(m, done) + Delivered(m, {c})
    ensures |Delivered(m, done + {c})| == |Delivered(m, done)| + |Delivered(m, {c})|
    ensures Delivered(m, {c}) == if c in m.conns && m.conns[c].socket.sendSucceeds then {c} else {}
  {
    assert Delivered(m, done + {c}) == Delivered(m, done) + Delivered(m, {c});
  }

  /** The ids of `ids` other than `exclude`, when an exclusion is given. */
  function Excluding(ids: set<string>, exclude: string): (r: set<string>)
    ensures exclude != "" ==> exclude !in r
    ensures r <= ids && ids - r <= {exclude}
  {
    if exclude != "" then ids - {exclude} else ids
  }

  /** `send_to_session`: every connection of the session except the excluded
      one is sent to; the count is the number of successful sends. */
  method SendToSession(m: Manager, sessionId: string, exclude: string, now: int) returns (r: Manager, count: nat)
    ensures count == |Delivered(m, Excluding(MultiIndex.Members(m.sessions, sessionId), exclude))|
    ensures count <= |MultiIndex.Members(m.sessions, sessionId)|
    ensures r.conns.Keys == m.conns.Keys
    ensures exclude != "" && exclude in m.conns ==> r.conns[exclude] == m.conns[exclude]
  {
    var targets := Excluding(MultiIndex.Members(m.sessions, sessionId), exclude);
    r, count := SendAll(m, targets, now);
    DeliveredBounded(m, targets);
    MultiIndex.SubsetCardinality(targets, MultiIndex.Members(m.sessions, sessionId));
  }

  /** `send_to_user`, the same rule over the user index. */
  method SendToUser(m: Manager, userId: string, exclude: string, now: int) returns (r: Manager, count: nat)
    ensures count == |Delivered(m, Excluding(MultiIndex.Members(m.users, userId), exclude))|
    ensures count <= |MultiIndex.Members(m.users, userId)|
    ensures r.conns.Keys == m.conns.Keys
    ensures exclude != "" && exclude in m.conns ==> r.conns[exclude] == m.conns[exclude]
  {
    var targets := Excluding(MultiIndex.Members(m.users, userId), exclude);
    r, count := SendAll(m, targets, now);
    DeliveredBounded(m, targets);
    MultiIndex.SubsetCardinality(targets, MultiIndex.Members(m.users, userId));
  }

  lemma DeliveredBounded(m: Manager, targets: set<string>)
    ensures |Delivered(m, targets)| <= |targets|
  {
    MultiIndex.SubsetCardinality(Delivered(m, targets), targets);
  }

  /** The connections `broadcast` addresses. */
  function BroadcastTargets(m: Manager, authenticatedOnly: bool): (t: set<string>)
    ensures t <= m.conns.Keys
    ensures forall c :: c in m.conns ==> (c in t <==> !authenticatedOnly || m.conns[c].authenticated)
  {
    set c | c in m.conns && (!authenticatedOnly || m.conns[c].authenticated)
  }

  /** `broadcast`: with `authenticated_only`, unauthenticated connections are skipped. */
  method Broadcast(m: Manager, authenticatedOnly: bool, now: int) returns (r: Manager, count: nat)
    ensures count == |Delivered(m, BroadcastTargets(m, authenticatedOnly))|
    ensures r.conns.Keys == m.conns.Keys
    ensures authenticatedOnly ==> forall c :: c in m.conns && !m.conns[c].authenticated ==> r.conns[c] == m.conns[c]
  {
    r, count := SendAll(m, BroadcastTargets(m, authenticatedOnly), now);
  }

  // ---------------------------------------------------------------------------
  // Sweeps

  /** Disconnect each id in turn. On a covered registry, stale entries
      included, no `disconnect` raises; a consistent registry stays consistent. */
  method DisconnectAll(m: Manager, ids: set<string>) returns (r: Manager)
    requires Covered(m)
    ensures Covered(r)
    ensures Inv(m) ==> Inv(r)
    ensures r.conns.Keys == m.conns.Keys - ids
    ensures forall c :: c in r.conns ==> r.conns[c] == m.conns[c]
  {
    r := m;
    var rest := ids;
    while rest != {}
      invariant rest <= ids
      invariant Covered(r)
      invariant Inv(m) ==> Inv(r)
      invariant r.conns.Keys == m.conns.Keys - (ids - rest)
      invariant forall c :: c in r.conns ==> r.conns[c] == m.conns[c]
      decreases |rest|
    {
      var c :| c in rest;
      DisconnectKeepsCovered(r, c);
      if Inv(m) {
        DisconnectUnderInv(r, c);
      }
      r := Disconnect(r, c).value;
      rest := rest - {c};
    }
  }

  /** Changing connection records without touching their session or user keeps the registry covered. */
  lemma SameKeysKeepCovered(m: Manager, r: Manager)
    requires Covered(m) && r.sessions == m.sessions && r.users == m.users && r.conns.Keys == m.conns.Keys
    requires forall c :: c in m.conns ==> r.conns[c].sessionId == m.conns[c].sessionId && r.conns[c].userId == m.conns[c].userId
    ensures Covered(r)
  {
  }

  /** Changing connection records without touching their session or user keeps the registry consistent. */
  lemma SameKeysPreservesInv(m: Manager, r: Manager)
    requires Inv(m) && r.sessions == m.sessions && r.users == m.users && r.conns.Keys == m.conns.Keys
    requires forall c :: c in m.conns ==> r.conns[c].sessionId == m.conns[c].sessionId && r.conns[c].userId == m.conns[c].userId
    ensures Inv(r)
  {
    SameKeysKeepFiled(m.sessions, m.conns, r.conns, true);
    SameKeysKeepFiled(m.users, m.conns, r.conns, false);
  }

  lemma SameKeysKeepFiled(ix: MultiIndex.Index, conns: map<string, Conn>, conns': map<string, Conn>, bySession: bool)
    requires Filed(ix, conns, bySession) && conns'.Keys == conns.Keys
    requires forall c :: c in conns ==> KeyOf(conns'[c], bySession) == KeyOf(conns[c], bySession)
    ensures Filed(ix, conns', bySession)
  {
  }

  /** One heartbeat round: every connection is sent a heartbeat, and exactly
      those whose send failed are disconnected. It runs on covered registries,
      including those with stale entries. */
  method HeartbeatSweep(m: Manager, now: int) returns (r: Manager)
    requires Covered(m)
    ensures Covered(r)
    ensures Inv(m) ==> Inv(r)
    ensures r.conns.Keys == set c | c in m.conns && m.conns[c].socket.sendSucceeds
    ensures forall c :: c in r.conns ==> r.conns[c] == m.conns[c].(lastActivity := now)
  {
    var sent, _ := SendAll(m, m.conns.Keys, now);
    SameKeysKeepCovered(m, sent);
    if Inv(m) {
      SameKeysPreservesInv(m, sent);
    }
    var failed := set c | c in m.conns && !m.conns[c].socket.sendSucceeds;
    r := DisconnectAll(sent, failed);
  }

  /** One cleanup round: exactly the connections expired under the default
      timeout are disconnected; the others are untouched. It runs on covered
      registries, including those with stale entries. */
  method CleanupSweep(m: Manager, now: int) returns (r: Manager)
    requires Covered(m)
    ensures Covered(r)
    ensures Inv(m) ==> Inv(r)
    ensures r.conns.Keys == set c | c in m.conns && !IsExpired(m.conns[c], now, None)
    ensures forall c :: c in r.conns ==> r.conns[c] == m.conns[c]
  {
    var expired := set c | c in m.conns && IsExpired(m.conns[c], now, None);
    r := DisconnectAll(m, expired);
  }
}
