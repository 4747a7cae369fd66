/** The chat core's connection manager: a table from connection id to the
    socket and the session and user attached to it, with targeted sends and a
    broadcast that can skip one connection.

    A socket is abstracted to its `readyState` and to whether `send` on it
    throws; a missing socket argument is `None`. A missing id, session or user
    is `""`, which is also how JavaScript's truthiness treats it. */
module CoreConnections {
  import opened Wrappers
  import MultiIndex

  /** `WebSocket.OPEN`. */
  const OPEN := 1

  datatype Socket = Socket(readyState: int, sendThrows: bool)

  datatype Details = Details(ws: Socket, sessionId: string, userId: string)

  type Table = map<string, Details>

  /** Every id in the table was accepted by `addConnection`, so none is empty. */
  predicate Inv(t: Table) {
    "" !in t
  }

  /** `addConnection`: a missing id or socket answers false; otherwise the
      connection is stored with no session or user, replacing any connection
      already under that id. */
  function AddConnection(t: Table, id: string, ws: Option<Socket>): (r: (bool, Table))
    ensures r.0 <==> id != "" && ws.Some?
    ensures !r.0 ==> r.1 == t
    ensures r.0 ==> r.1.Keys == t.Keys + {id} && r.1[id] == Details(ws.value, "", "")
    ensures r.0 ==> forall c :: c in t && c != id ==> r.1[c] == t[c]
    ensures r.0 ==> |r.1| == |t| + (if id in t then 0 else 1)
    ensures Inv(t) ==> Inv(r.1)
  {
    if id == "" || ws.None? then (false, t)
    else
      StoreSize(t, id, Details(ws.value, "", ""));
      (true, t[id := Details(ws.value, "", "")])
  }

  /** Storing under an id adds that id to the keys, and grows the table only
      when the id is new. */
  lemma StoreSize(t: Table, id: string, d: Details)
    ensures t[id := d].Keys == t.Keys + {id}
    ensures |t[id := d]| == |t| + (if id in t then 0 else 1)
  {
    var r := t[id := d];
    if id in t {
      assert r.Keys == t.Keys;
    } else {
      assert r.Keys == t.Keys + {id} && id !in t.Keys;
    }
  }

  /** `setConnectionDetails`: a partial update in which a missing session or
      user leaves the stored one in place. */
  function SetConnectionDetails(t: Table, id: string, sessionId: string, userId: string): (r: (bool, Table))
    ensures r.0 <==> id != "" && id in t
    ensures !r.0 ==> r.1 == t
    ensures r.0 ==> r.1.Keys == t.Keys && r.1[id].ws == t[id].ws
    ensures r.0 ==> r.1[id].sessionId == (if sessionId != "" then sessionId else t[id].sessionId)
    ensures r.0 ==> r.1[id].userId == (if userId != "" then userId else t[id].userId)
    ensures forall c :: c in t && c != id ==> r.1[c] == t[c]
  {
    if id == "" || id !in t then (false, t)
    else
      var d := t[id];
      var sid := if sessionId != "" then sessionId else d.sessionId;
      var uid := if userId != "" then userId else d.userId;
      (true, t[id := d.(sessionId := sid, userId := uid)])
  }

  /** `removeConnection`: true exactly when a connection was under that id, and
      then it is gone. */
  function RemoveConnection(t: Table, id: string): (r: (bool, Table))
    ensures r.0 <==> id != "" && id in t
    ensures Inv(t) ==> (r.0 <==> id in t)
    ensures r.1.Keys == t.Keys - {id} || (!r.0 && r.1 == t)
    ensures r.0 ==> |r.1| == |t| - 1
    ensures forall c :: c in r.1 ==> c in t && r.1[c] == t[c]
  {
    if id == "" then (false, t)
    else if id in t then
      assert (t - {id}).Keys == t.Keys - {id};
      (true, t - {id})
    else (false, t)
  }

  /** `getConnection`: the socket under the id. */
  function GetConnection(t: Table, id: string): (r: Option<Socket>)
    ensures r.Some? <==> id != "" && id in t
    ensures r.Some? ==> r.value == t[id].ws
  {
    if id == "" || id !in t then None else Some(t[id].ws)
  }

  /** A connection added under an id is what a lookup of that id finds, until
      it is removed again. */
  lemma {:induction false} AddThenGet(t: Table, id: string, ws: Socket)
    requires id != ""
    ensures GetConnection(AddConnection(t, id, Some(ws)).1, id) == Some(ws)
    ensures GetConnection(RemoveConnection(AddConnection(t, id, Some(ws)).1, id).1, id) == None
  {
    var added := AddConnection(t, id, Some(ws)).1;
    assert id in added && added[id].ws == ws;
    var removed := RemoveConnection(added, id).1;
    assert id !in removed;
  }

  /** Removing a connection just added under a fresh id gives back the table. */
  lemma {:induction false} RemoveUndoesAdd(t: Table, id: string, ws: Socket)
    requires id != "" && id !in t
    ensures RemoveConnection(AddConnection(t, id, Some(ws)).1, id) == (true, t)
  {
    StoreThenDrop(t, id, Details(ws, "", ""));
  }

  lemma StoreThenDrop(t: Table, id: string, d: Details)
    requires id !in t
    ensures t[id := d] - {id} == t
  {
    assert (t[id := d] - {id}).Keys == t.Keys;
  }

  /** `sendMessageToConnection`: false for an unknown id, a socket that is not
      OPEN or a send that throws. */
  function SendMessageToConnection(t: Table, id: string): (ok: bool)
    ensures ok <==> id in t && t[id].ws.readyState == OPEN && !t[id].ws.sendThrows
  {
    if id !in t then false
    else
      var ws := t[id].ws;
      if ws.readyState != OPEN then false
      else !ws.sendThrows
  }

  /** The connections among `among` a broadcast skipping `except` reaches. */
  function Reached(t: Table, except: Option<string>, among: set<string>): set<string> {
    set c | c in among && c in t && Some(c) != except && t[c].ws.readyState == OPEN && !t[c].ws.sendThrows
  }

  /** `broadcastMessage`: every connection except the excluded one is sent the
      message when its socket is OPEN; the count is the number of sends that
      did not throw, which is the number of targeted sends that would answer
      true. */
  method BroadcastMessage(t: Table, except: Option<string>) returns (count: nat)
    ensures count == |Reached(t, except, t.Keys)|
    ensures count == |set c | c in t && Some(c) != except && SendMessageToConnection(t, c)|
    ensures count <= |t| - (if except.Some? && except.value in t then 1 else 0)
  {
    count := 0;
    var rest := t.Keys;
    ghost var done: set<string> := {};
    while rest != {}
      invariant rest !! done && rest + done == t.Keys
      invariant count == |Reached(t, except, done)|
      decreases |rest|
    {
      var c :| c in rest;
      ReachedStep(t, except, done, c);
      if Some(c) != except && t[c].ws.readyState == OPEN {
        if !t[c].ws.sendThrows {
          count := count + 1;
        }
      }
      rest := rest - {c};
      done := done + {c};
    }
    ReachedIsWhereSendsSucceed(t, except);
    ReachedBounded(t, except);
  }

  lemma ReachedIsWhereSendsSucceed(t: Table, except: Option<string>)
    ensures (set c | c in t && Some(c) != except && SendMessageToConnection(t, c)) == Reached(t, except, t.Keys)
  {
  }

  lemma ReachedStep(t: Table, except: Option<string>, done: set<string>, c: string)
    requires c in t && c !in done
    ensures |Reached(t, except, done + {c})| ==
              |Reached(t, except, done)| + (if Some(c) != except && t[c].ws.readyState == OPEN && !t[c].ws.sendThrows then 1 else 0)
  {
    var before := Reached(t, except, done);
    if Some(c) != except && t[c].ws.readyState == OPEN && !t[c].ws.sendThrows {
      assert Reached(t, except, done + {c}) == before + {c};
    } else {
      assert Reached(t, except, done + {c}) == before;
    }
  }

  lemma ReachedBounded(t: Table, except: Option<string>)
    ensures |Reached(t, except, t.Keys)| <= |t| - (if except.Some? && except.value in t then 1 else 0)
  {
    if except.Some? && except.value in t {
      MultiIndex.SubsetCardinality(Reached(t, except, t.Keys), t.Keys - {except.value});
    } else {
      MultiIndex.SubsetCardinality(Reached(t, except, t.Keys), t.Keys);
    }
  }
}
