/** The WebSocket module's connection pool: the connection table, its user and
    session indexes, capacity-limited admission, targeted sends, filtered
    broadcast and one round of the periodic cleanup.

    A connection's socket is abstracted to its `readyState` and to whether a
    send on it throws. The connection id that `uuidv4` would draw and the clock
    are parameters. A missing `userId` or `sessionId` is `""`, which is also how
    JavaScript's truthiness treats it. */
module ConnectionPool {
  import opened Wrappers
  import MultiIndex

  /** `ws.readyState` values the pool tests. */
  const OPEN := 1
  const CLOSED := 3

  /** Close codes the pool sends. */
  const CLOSE_NORMAL := 1000
  const CLOSE_TRY_AGAIN_LATER := 1013

  datatype Options = Options(maxConnections: int, connectionTimeout: int)

  /** The constructor's defaults (the timeout is in milliseconds). */
  const DEFAULT_OPTIONS := Options(1000, 300000)

  datatype Socket = Socket(readyState: int, sendThrows: bool)

  datatype Info = Info(userId: string, sessionId: string, connectedAt: int, lastActivity: int, messageCount: nat, socket: Socket)

  datatype Pool = Pool(options: Options, conns: map<string, Info>, users: MultiIndex.Index, sessions: MultiIndex.Index)

  /** The answer of `addConnection`: the new record, or `null` after the socket
      was closed with `closeCode`. */
  datatype Admission = Admitted(info: Info) | Rejected(closeCode: int)

  function Empty(options: Options): Pool {
    Pool(options, map[], map[], map[])
  }

  /** The key a connection is filed under in the session index (`bySession`)
      or the user index. */
  function KeyOf(info: Info, bySession: bool): string {
    if bySession then info.sessionId else info.userId
  }

  /** One index agrees with the table: every filed id is a live connection
      carrying that key, every live connection with a key is filed under it,
      no set is empty, and nothing is filed under the empty key. */
  ghost predicate Filed(ix: MultiIndex.Index, conns: map<string, Info>, bySession: bool) {
    && MultiIndex.NoEmptySets(ix) && "" !in ix
    && (forall k, c :: k in ix && c in ix[k] ==> c in conns && KeyOf(conns[c], bySession) == k)
    && (forall c :: c in conns && KeyOf(conns[c], bySession) != "" ==>
          KeyOf(conns[c], bySession) in ix && c in ix[KeyOf(conns[c], bySession)])
  }

  /** The pool invariant: both indexes agree with the table. */
  ghost predicate Inv(p: Pool) {
    Filed(p.users, p.conns, false) && Filed(p.sessions, p.conns, true)
  }

  lemma EmptyInv(options: Options)
    ensures Inv(Empty(options))
  {
  }

  // ---------------------------------------------------------------------------
  // Admission and removal

  /** File `id` under `key` when the key is present. */
  function FileUnder(ix: MultiIndex.Index, key: string, id: string): (r: MultiIndex.Index)
    ensures forall j :: MultiIndex.Members(r, j) == MultiIndex.Members(ix, j) + (if j == key && key != "" then {id} else {})
    ensures MultiIndex.NoEmptySets(ix) ==> MultiIndex.NoEmptySets(r)
    ensures "" !in ix ==> "" !in r
  {
    if key != "" then MultiIndex.Add(ix, key, id) else ix
  }

  /** Take `id` out of the set under `key` when the key is present; a set that
      becomes empty is deleted. */
  function UnfileFrom(ix: MultiIndex.Index, key: string, id: string): (r: MultiIndex.Index)
    ensures forall j :: MultiIndex.Members(r, j) == MultiIndex.Members(ix, j) - (if j == key && key != "" then {id} else {})
    ensures MultiIndex.NoEmptySets(ix) ==> MultiIndex.NoEmptySets(r)
    ensures r.Keys <= ix.Keys
  {
    if key != "" then MultiIndex.Remove(ix, key, id) else ix
  }

  /** `addConnection`: a full pool closes the socket with 1013 and stores
      nothing; otherwise the connection is stored, active as of `now`, and
      indexed under its user and session when it has them. */
  function AddConnection(p: Pool, id: string, userId: string, sessionId: string, socket: Socket, now: int): (r: (Admission, Pool))
    ensures |p.conns| >= p.options.maxConnections <==> r.0.Rejected?
    ensures r.0.Rejected? ==> r.0.closeCode == CLOSE_TRY_AGAIN_LATER && r.1 == p
    ensures r.0.Admitted? ==>
              && r.0.info == Info(userId, sessionId, now, now, 0, socket)
              && r.1.conns == p.conns[id := r.0.info]
              && (forall u :: MultiIndex.Members(r.1.users, u) ==
                    MultiIndex.Members(p.users, u) + (if u == userId && userId != "" then {id} else {}))
              && (forall s :: MultiIndex.Members(r.1.sessions, s) ==
                    MultiIndex.Members(p.sessions, s) + (if s == sessionId && sessionId != "" then {id} else {}))
  {
    if |p.conns| >= p.options.maxConnections then (Rejected(CLOSE_TRY_AGAIN_LATER), p)
    else
      var info := Info(userId, sessionId, now, now, 0, socket);
      (Admitted(info), Pool(p.options, p.conns[id := info], FileUnder(p.users, userId, id), FileUnder(p.sessions, sessionId, id)))
  }

  /** `removeConnection`: an unknown id answers false and changes nothing;
      otherwise the id leaves the table and both indexes. */
  function RemoveConnection(p: Pool, id: string): (r: (bool, Pool))
    ensures r.0 <==> id in p.conns
    ensures !r.0 ==> r.1 == p
    ensures r.0 ==>
              && r.1.conns == p.conns - {id}
              && (forall u :: MultiIndex.Members(r.1.users, u) ==
                    MultiIndex.Members(p.users, u) - (if u == p.conns[id].userId && u != "" then {id} else {}))
              && (forall s :: MultiIndex.Members(r.1.sessions, s) ==
                    MultiIndex.Members(p.sessions, s) - (if s == p.conns[id].sessionId && s != "" then {id} else {}))
  {
    if id !in p.conns then (false, p)
    else
      var info := p.conns[id];
      (true, Pool(p.options, p.conns - {id}, UnfileFrom(p.users, info.userId, id), UnfileFrom(p.sessions, info.sessionId, id)))
  }

  /** Under the invariant an id that is not a live connection is filed nowhere. */
  lemma UnknownIsUnfiled(p: Pool, id: string)
    requires Inv(p) && id !in p.conns
    ensures forall u :: id !in MultiIndex.Members(p.users, u)
    ensures forall s :: id !in MultiIndex.Members(p.sessions, s)
  {
  }

  /** Filing a fresh connection under its key keeps an index in agreement. */
  lemma {:induction false} FileKeepsFiled(ix: MultiIndex.Index, conns: map<string, Info>, bySession: bool, id: string, info: Info)
    requires Filed(ix, conns, bySession) && id !in conns
    ensures Filed(FileUnder(ix, KeyOf(info, bySession), id), conns[id := info], bySession)
  {
    var r := FileUnder(ix, KeyOf(info, bySession), id);
    var after := conns[id := info];
    forall k, c | k in r && c in r[k]
      ensures c in after && KeyOf(after[c], bySession) == k
    {
      assert c in MultiIndex.Members(r, k);
    }
    forall c | c in after && KeyOf(after[c], bySession) != ""
      ensures KeyOf(after[c], bySession) in r && c in r[KeyOf(after[c], bySession)]
    {
      assert c in MultiIndex.Members(r, KeyOf(after[c], bySession));
    }
  }

  /** Unfiling a live connection from its key and dropping it from the table
      keeps an index in agreement. */
  lemma {:induction false} UnfileKeepsFiled(ix: MultiIndex.Index, conns: map<string, Info>, bySession: bool, id: string)
    requires Filed(ix, conns, bySession) && id in conns
    ensures Filed(UnfileFrom(ix, KeyOf(conns[id], bySession), id), conns - {id}, bySession)
  {
    var r := UnfileFrom(ix, KeyOf(conns[id], bySession), id);
    var after := conns - {id};
    forall k, c | k in r && c in r[k]
      ensures c in after && KeyOf(after[c], bySession) == k
    {
      assert c in MultiIndex.Members(r, k);
    }
    forall c | c in after && KeyOf(after[c], bySession) != ""
      ensures KeyOf(after[c], bySession) in r && c in r[KeyOf(after[c], bySession)]
    {
      assert c in MultiIndex.Members(r, KeyOf(after[c], bySession));
    }
  }

  /** Admitting a connection under a fresh id keeps the pool consistent. */
  lemma {:induction false} AddPreservesInv(p: Pool, id: string, userId: string, sessionId: string, socket: Socket, now: int)
    requires Inv(p) && id !in p.conns
    ensures Inv(AddConnection(p, id, userId, sessionId, socket, now).1)
  {
    if |p.conns| < p.options.maxConnections {
      var info := Info(userId, sessionId, now, now, 0, socket);
      AdmittedShape(p, id, userId, sessionId, socket, now);
      FileKeepsFiled(p.users, p.conns, false, id, info);
      FileKeepsFiled(p.sessions, p.conns, true, id, info);
    }
  }

  /** Removing a connection keeps the pool consistent: in particular the set
      that loses its last member is deleted rather than left empty. */
  lemma {:induction false} RemovePreservesInv(p: Pool, id: string)
    requires Inv(p)
    ensures Inv(RemoveConnection(p, id).1)
  {
    if id in p.conns {
      RemoveShape(p, id);
      UnfileKeepsFiled(p.users, p.conns, false, id);
      UnfileKeepsFiled(p.sessions, p.conns, true, id);
    }
  }

  /** Removing a connection just admitted under a fresh id gives back the pool
      it was admitted to. */
  lemma {:induction false} RemoveUndoesAdd(p: Pool, id: string, userId: string, sessionId: string, socket: Socket, now: int)
    requires Inv(p) && id !in p.conns
    ensures var added := AddConnection(p, id, userId, sessionId, socket, now);
            added.0.Admitted? ==> RemoveConnection(added.1, id) == (true, p)
  {
    if |p.conns| < p.options.maxConnections {
      UnknownIsUnfiled(p, id);
      AdmittedShape(p, id, userId, sessionId, socket, now);
      FiledRoundTrip(p, id, Info(userId, sessionId, now, now, 0, socket));
    }
  }

  lemma FiledRoundTrip(p: Pool, id: string, info: Info)
    requires MultiIndex.NoEmptySets(p.users) && MultiIndex.NoEmptySets(p.sessions)
    requires id !in p.conns && id !in MultiIndex.Members(p.users, info.userId) && id !in MultiIndex.Members(p.sessions, info.sessionId)
    ensures RemoveConnection(Pool(p.options, p.conns[id := info], FileUnder(p.users, info.userId, id), FileUnder(p.sessions, info.sessionId, id)), id) == (true, p)
  {
    var q := Pool(p.options, p.conns[id := info], FileUnder(p.users, info.userId, id), FileUnder(p.sessions, info.sessionId, id));
    UnfileUndoesFile(p.users, info.userId, id);
    UnfileUndoesFile(p.sessions, info.sessionId, id);
    RemoveShape(q, id);
    assert q.conns - {id} == p.conns;
  }

  lemma AdmittedShape(p: Pool, id: string, userId: string, sessionId: string, socket: Socket, now: int)
    requires |p.conns| < p.options.maxConnections
    ensures AddConnection(p, id, userId, sessionId, socket, now).1 ==
              Pool(p.options, p.conns[id := Info(userId, sessionId, now, now, 0, socket)], FileUnder(p.users, userId, id), FileUnder(p.sessions, sessionId, id))
  {
  }

  lemma RemoveShape(q: Pool, id: string)
    requires id in q.conns
    ensures RemoveConnection(q, id).1 ==
              Pool(q.options, q.conns - {id}, UnfileFrom(q.users, q.conns[id].userId, id), UnfileFrom(q.sessions, q.conns[id].sessionId, id))
  {
  }

  lemma UnfileUndoesFile(ix: MultiIndex.Index, key: string, id: string)
    requires MultiIndex.NoEmptySets(ix) && id !in MultiIndex.Members(ix, key)
    ensures UnfileFrom(FileUnder(ix, key, id), key, id) == ix
  {
    if key != "" {
      assert FileUnder(ix, key, id) == MultiIndex.Add(ix, key, id);
      MultiIndex.RemoveUndoesAdd(ix, key, id);
    }
  }

  /** A second removal of the same id answers false and changes nothing. */
  lemma RemoveIsIdempotent(p: Pool, id: string)
    ensures var once := RemoveConnection(p, id).1;
            RemoveConnection(once, id) == (false, once)
  {
  }

  // ---------------------------------------------------------------------------
  // Lookups

  /** `getUserConnections`: the live connections filed under the user. */
  function UserConnections(p: Pool, userId: string): (r: set<string>)
    ensures r <= p.conns.Keys
  {
    set c | c in MultiIndex.Members(p.users, userId) && c in p.conns
  }

  /** `getSessionConnections`: the live connections filed under the session. */
  function SessionConnections(p: Pool, sessionId: string): (r: set<string>)
    ensures r <= p.conns.Keys
  {
    set c | c in MultiIndex.Members(p.sessions, sessionId) && c in p.conns
  }

  /** Under the invariant the indexes answer exactly: a user's connections are
      the live ones carrying that user, and likewise for sessions. */
  lemma {:induction false} IndexesAreExact(p: Pool, userId: string, sessionId: string)
    requires Inv(p)
    ensures forall c :: c in UserConnections(p, userId) <==> c in p.conns && userId != "" && p.conns[c].userId == userId
    ensures forall c :: c in SessionConnections(p, sessionId) <==> c in p.conns && sessionId != "" && p.conns[c].sessionId == sessionId
  {
    forall c | c in p.conns && userId != "" && p.conns[c].userId == userId
      ensures c in UserConnections(p, userId)
    {
      assert c in p.users[userId];
    }
    forall c | c in p.conns && sessionId != "" && p.conns[c].sessionId == sessionId
      ensures c in SessionConnections(p, sessionId)
    {
      assert c in p.sessions[sessionId];
    }
  }

  // ---------------------------------------------------------------------------
  // Sending

  /** Whether a send on the connection goes through: its socket is OPEN and
      the send does not throw. */
  predicate Accepts(info: Info) {
    info.socket.readyState == OPEN && !info.socket.sendThrows
  }

  /** `sendToConnection`: false for an unknown id, a socket that is not OPEN or
      a send that throws; a send that goes through refreshes the connection's
      last activity. */
  function SendToConnection(p: Pool, id: string, now: int): (r: (bool, Pool))
    ensures r.0 <==> id in p.conns && p.conns[id].socket.readyState == OPEN && !p.conns[id].socket.sendThrows
    ensures r.0 ==> r.1 == p.(conns := p.conns[id := p.conns[id].(lastActivity := now)])
    ensures !r.0 ==> r.1 == p
  {
    if id !in p.conns || p.conns[id].socket.readyState != OPEN then (false, p)
    else if p.conns[id].socket.sendThrows then (false, p)
    else (true, p.(conns := p.conns[id := p.conns[id].(lastActivity := now)]))
  }

  /** The connections a broadcast addresses: all of them, or those the filter
      admits when one is given. */
  function Addressed(p: Pool, filter: Option<Info -> bool>): (t: set<string>)
    ensures t <= p.conns.Keys
    ensures forall c :: c in p.conns ==> (c in t <==> filter.None? || filter.value(p.conns[c]))
  {
    set c | c in p.conns && (filter.None? || filter.value(p.conns[c]))
  }

  /** The connections of `targets` a send reaches. */
  function Reached(p: Pool, targets: set<string>): set<string> {
    set c | c in targets && c in p.conns && Accepts(p.conns[c])
  }

  /** `r` is `p` after sends went through on exactly the connections of `sent`. */
  ghost predicate SentTo(p: Pool, r: Pool, sent: set<string>, now: int) {
    && r.options == p.options && r.users == p.users && r.sessions == p.sessions
    && r.conns.Keys == p.conns.Keys
    && forall c :: c in p.conns ==>
         r.conns[c] == if c in sent then p.conns[c].(lastActivity := now) else p.conns[c]
  }

  lemma ReachedStep(p: Pool, done: set<string>, c: string)
    requires c !in done
    ensures Reached(p, done + {c}) == Reached(p, done) + Reached(p, {c})
    ensures |Reached(p, done + {c})| == |Reached(p, done)| + |Reached(p, {c})|
    ensures Reached(p, {c}) == if c in p.conns && Accepts(p.conns[c]) then {c} else {}
  {
    assert Reached(p, done + {c}) == Reached(p, done) + Reached(p, {c});
  }

  lemma SendStep(p: Pool, r: Pool, done: set<string>, c: string, now: int)
    requires SentTo(p, r, Reached(p, done), now) && c !in done
    ensures SentTo(p, SendToConnection(r, c, now).1, Reached(p, done + {c}), now)
    ensures |Reached(p, done + {c})| == |Reached(p, done)| + (if SendToConnection(r, c, now).0 then 1 else 0)
  {
    ReachedStep(p, done, c);
  }

  /** Send to every id of `targets` in some order, counting the sends that go through. */
  method SendAll(p: Pool, targets: set<string>, now: int) returns (r: Pool, count: nat)
    ensures count == |Reached(p, targets)|
    ensures SentTo(p, r, Reached(p, targets), now)
  {
    r, count := p, 0;
    var rest := targets;
    ghost var done: set<string> := {};
    while rest != {}
      invariant rest !! done && rest + done == targets
      invariant count == |Reached(p, done)|
      invariant SentTo(p, r, Reached(p, done), now)
      decreases |rest|
    {
      var c :| c in rest;
      SendStep(p, r, done, c, now);
      var step := SendToConnection(r, c, now);
      if step.0 {
        count := count + 1;
      }
      r := step.1;
      rest := rest - {c};
      done := done + {c};
    }
  }

  /** `broadcast`: each connection the filter admits is sent the message once;
      the count is the number of sends that went through, and exactly those
      connections have their last activity refreshed. */
  method Broadcast(p: Pool, filter: Option<Info -> bool>, now: int) returns (r: Pool, count: nat)
    ensures count == |Reached(p, Addressed(p, filter))|
    ensures count <= |Addressed(p, filter)|
    ensures SentTo(p, r, Reached(p, Addressed(p, filter)), now)
  {
    var targets := Addressed(p, filter);
    r, count := SendAll(p, targets, now);
    MultiIndex.SubsetCardinality(Reached(p, targets), targets);
  }

  /** A message arriving on a connection counts it and refreshes its activity. */
  function OnMessage(p: Pool, id: string, now: int): (r: Pool)
    ensures r.conns.Keys == p.conns.Keys && r.users == p.users && r.sessions == p.sessions
    ensures id in p.conns ==> r.conns[id].lastActivity == now && r.conns[id].messageCount == p.conns[id].messageCount + 1
    ensures forall c :: c in p.conns && c != id ==> r.conns[c] == p.conns[c]
  {
    if id !in p.conns then p
    else
      var info := p.conns[id];
      p.(conns := p.conns[id := info.(lastActivity := now, messageCount := info.messageCount + 1)])
  }

  // ---------------------------------------------------------------------------
  // Cleanup

  /** A connection `cleanup` drops: its socket is CLOSED, or it has been
      inactive for longer than the timeout. */
  predicate Dead(p: Pool, info: Info, now: int) {
    info.socket.readyState == CLOSED || info.lastActivity < now - p.options.connectionTimeout
  }

  /** Remove each id in turn. */
  method RemoveAll(p: Pool, ids: set<string>) returns (r: Pool)
    requires Inv(p)
    ensures Inv(r) && r.options == p.options
    ensures r.conns.Keys == p.conns.Keys - ids
    ensures forall c :: c in r.conns ==> r.conns[c] == p.conns[c]
  {
    r := p;
    var rest := ids;
    while rest != {}
      invariant rest <= ids
      invariant Inv(r) && r.options == p.options
      invariant r.conns.Keys == p.conns.Keys - (ids - rest)
      invariant forall c :: c in r.conns ==> r.conns[c] == p.conns[c]
      decreases |rest|
    {
      var c :| c in rest;
      RemovePreservesInv(r, c);
      r := RemoveConnection(r, c).1;
      rest := rest - {c};
    }
  }

  /** One `cleanup` round: exactly the dead connections are removed, the
      others are kept as they were, and the ones dropped for inactivity (not
      already CLOSED) are the ones closed with 1000. */
  method Cleanup(p: Pool, now: int) returns (r: Pool, timedOut: set<string>)
    requires Inv(p)
    ensures Inv(r) && r.options == p.options
    ensures forall c :: c in r.conns <==> c in p.conns && !Dead(p, p.conns[c], now)
    ensures forall c :: c in r.conns ==> r.conns[c] == p.conns[c]
    ensures forall c :: c in timedOut <==>
              c in p.conns && p.conns[c].socket.readyState != CLOSED && p.conns[c].lastActivity < now - p.options.connectionTimeout
  {
    var dead := set c | c in p.conns && Dead(p, p.conns[c], now);
    timedOut := set c | c in dead && p.conns[c].socket.readyState != CLOSED;
    r := RemoveAll(p, dead);
  }
}
