/** The Redis-backed session manager of the session service: three keys per
    session (a metadata hash, the current agent, and a message history list),
    each with an expiry.

    The Redis key space is a map from key to value plus a map from key to the
    absolute second it expires at. Every command is a pure function on it;
    `now` and the ISO timestamps the source reads from the clock, and the
    session id it draws from `uuidv4`, are parameters. */
module RedisSessions {
  import opened Wrappers
  import Seqs
  import MultiIndex

  const DEFAULT_SESSION_TTL := 86400
  const MAX_MESSAGE_HISTORY := 100
  const DEFAULT_HISTORY_LIMIT := 20

  // ----- keys -----

  function MetaKey(id: string): string { "session:" + id + ":meta" }
  function AgentKey(id: string): string { "session:" + id + ":agent" }
  function HistoryKey(id: string): string { "session:" + id + ":history" }

  /** The three keys of one session. */
  function SessionKeys(id: string): set<string> {
    {MetaKey(id), AgentKey(id), HistoryKey(id)}
  }

  /** Different sessions never share a key, and one session's three keys are
      three different keys. */
  lemma KeysAreDistinct(a: string, b: string)
    ensures MetaKey(a) != AgentKey(b) && MetaKey(a) != HistoryKey(b) && AgentKey(a) != HistoryKey(b)
    ensures MetaKey(a) == MetaKey(b) ==> a == b
    ensures AgentKey(a) == AgentKey(b) ==> a == b
    ensures HistoryKey(a) == HistoryKey(b) ==> a == b
    ensures |SessionKeys(a)| == 3
  {
    assert MetaKey(a)[|MetaKey(a)| - 1] == 'a' && AgentKey(b)[|AgentKey(b)| - 1] == 't' && HistoryKey(b)[|HistoryKey(b)| - 1] == 'y';
    assert AgentKey(a)[|AgentKey(a)| - 1] == 't' && MetaKey(b)[|MetaKey(b)| - 1] == 'a';
    if MetaKey(a) == MetaKey(b) {
      assert a == MetaKey(a)[8..8 + |a|] && b == MetaKey(b)[8..8 + |b|];
    }
    if AgentKey(a) == AgentKey(b) {
      assert a == AgentKey(a)[8..8 + |a|] && b == AgentKey(b)[8..8 + |b|];
    }
    if HistoryKey(a) == HistoryKey(b) {
      assert a == HistoryKey(a)[8..8 + |a|] && b == HistoryKey(b)[8..8 + |b|];
    }
  }

  /** The glob `session:*:meta` (the star matches any text, colons included). */
  predicate MatchesMetaPattern(k: string) {
    |k| >= 13 && k[..8] == "session:" && k[|k| - 5..] == ":meta"
  }

  /** The pattern matches exactly the metadata keys. */
  lemma MetaPatternIsMetaKey(k: string)
    ensures MatchesMetaPattern(k) <==> exists id :: k == MetaKey(id)
  {
    if MatchesMetaPattern(k) {
      var id := k[8..|k| - 5];
      assert k == k[..8] + id + k[|k| - 5..];
      assert k == MetaKey(id);
    }
    forall id | k == MetaKey(id)
      ensures MatchesMetaPattern(k)
    {
      assert k[..8] == "session:" && k[|k| - 5..] == ":meta";
    }
  }

  /** The text before the first colon (all of it when there is none). */
  function UpToColon(s: string): (r: string)
    ensures Seqs.IsPrefix(r, s) && ':' !in r
  {
    if |s| == 0 || s[0] == ':' then "" else [s[0]] + UpToColon(s[1..])
  }

  /** `key.split(":")[1]`: the second colon-separated field, when there is one. */
  function SecondField(k: string): Option<string> {
    if ':' in k then Some(UpToColon(k[Seqs.FirstIndex(k, ':') + 1..])) else None
  }

  lemma {:induction false} UpToColonStopsAtColon(a: string, b: string)
    requires ':' !in a
    ensures UpToColon(a + ":" + b) == a
  {
    if |a| > 0 {
      UpToColonStopsAtColon(a[1..], b);
      assert (a + ":" + b)[1..] == a[1..] + ":" + b;
    } else {
      assert (a + ":" + b)[0] == ':';
    }
  }

  lemma MetaKeyFirstColon(id: string)
    ensures ':' in MetaKey(id) && Seqs.FirstIndex(MetaKey(id), ':') == 7
    ensures MetaKey(id)[8..] == id + ":meta"
  {
    var k := MetaKey(id);
    assert k[7] == ':';
    assert k[..8] == "session:";
  }

  lemma SecondFieldOfMetaKeyIs(id: string)
    ensures SecondField(MetaKey(id)) == Some(UpToColon(id + ":meta"))
  {
    MetaKeyFirstColon(id);
  }

  /** Cleanup recovers a session id from its metadata key when the id has no
      colon, as every `uuidv4` id. */
  lemma SecondFieldOfMetaKey(id: string)
    requires ':' !in id
    ensures SecondField(MetaKey(id)) == Some(id)
  {
    SecondFieldOfMetaKeyIs(id);
    var tail: string := ":meta";
    assert tail == ":" + "meta";
    UpToColonStopsAtColon(id, "meta");
    assert id + tail == id + ":" + "meta";
  }

  /** An id with a colon comes back cut at its first colon. */
  lemma SecondFieldOfColonId(id: string, c: nat)
    requires c < |id| && id[c] == ':' && ':' !in id[..c]
    ensures SecondField(MetaKey(id)) == Some(id[..c])
  {
    SecondFieldOfMetaKeyIs(id);
    var rest := id[c + 1..] + ":meta";
    assert id + ":meta" == id[..c] + ":" + rest by {
      assert id == id[..c] + [':'] + id[c + 1..];
    }
    UpToColonStopsAtColon(id[..c], rest);
  }

  // ----- the key space -----

  /** What the manager stores; a message is kept as its JSON text, and a list
      entry that is not such a text is `Raw`. */
  datatype Message = Message(id: string, from: string, text: string, timestamp: string)

  datatype Item = Json(m: Message) | Raw(text: string)

  datatype Value = Hash(fields: map<string, string>) | Str(s: string) | List(items: seq<Item>)

  datatype Store = Store(data: map<string, Value>, expiry: map<string, int>)

  /** The type each kind of key holds. */
  predicate Typed(k: string, v: Value) {
    (Seqs.IsSuffix(":meta", k) ==> v.Hash?) &&
    (Seqs.IsSuffix(":agent", k) ==> v.Str?) &&
    (Seqs.IsSuffix(":history", k) ==> v.List?)
  }

  /** Only live keys carry an expiry, and every key holds its kind's type, so
      no command here meets a WRONGTYPE reply. */
  predicate Inv(st: Store) {
    (forall k :: k in st.expiry ==> k in st.data) &&
    (forall k :: k in st.data ==> Typed(k, st.data[k]))
  }

  lemma KeyKinds(id: string)
    ensures Seqs.IsSuffix(":meta", MetaKey(id)) && !Seqs.IsSuffix(":agent", MetaKey(id)) && !Seqs.IsSuffix(":history", MetaKey(id))
    ensures Seqs.IsSuffix(":agent", AgentKey(id)) && !Seqs.IsSuffix(":meta", AgentKey(id)) && !Seqs.IsSuffix(":history", AgentKey(id))
    ensures Seqs.IsSuffix(":history", HistoryKey(id)) && !Seqs.IsSuffix(":meta", HistoryKey(id)) && !Seqs.IsSuffix(":agent", HistoryKey(id))
  {
    var m, a, h := MetaKey(id), AgentKey(id), HistoryKey(id);
    assert m[|m| - 5..] == ":meta" && m[|m| - 1] == 'a';
    assert a[|a| - 6..] == ":agent" && a[|a| - 1] == 't';
    assert h[|h| - 8..] == ":history" && h[|h| - 1] == 'y';
  }

  /** Every key outside `keys` is as it was, value and expiry. */
  ghost predicate Untouched(st: Store, st': Store, keys: set<string>) {
    (forall k :: k !in keys ==> (k in st'.data <==> k in st.data)) &&
    (forall k :: k !in keys && k in st.data ==> st'.data[k] == st.data[k]) &&
    (forall k :: k !in keys ==> (k in st'.expiry <==> k in st.expiry)) &&
    (forall k :: k !in keys && k in st.expiry ==> st'.expiry[k] == st.expiry[k])
  }

  /** Time passing: every key whose expiry is not after `now` is gone. */
  function Tick(st: Store, now: int): (r: Store)
    requires Inv(st)
    ensures Inv(r)
    ensures forall k :: k in r.data <==> k in st.data && (k !in st.expiry || st.expiry[k] > now)
    ensures forall k :: k in r.data ==> r.data[k] == st.data[k]
    ensures forall k :: k in r.expiry <==> k in st.expiry && st.expiry[k] > now
  {
    Store(map k | k in st.data && (k !in st.expiry || st.expiry[k] > now) :: st.data[k],
          map k | k in st.expiry && st.expiry[k] > now :: st.expiry[k])
  }

  /** The fields of the hash at `k`; none when there is no hash there. */
  function FieldsOf(st: Store, k: string): map<string, string> {
    if k in st.data && st.data[k].Hash? then st.data[k].fields else map[]
  }

  /** `after` is `before` with the fields of `written` set: those take their
      new values, every other field keeps its value, and no other field
      appears. */
  ghost predicate Stamped(before: map<string, string>, after: map<string, string>, written: map<string, string>) {
    && (forall f :: f in written ==> f in after && after[f] == written[f])
    && (forall f :: f in before && f !in written ==> f in after && after[f] == before[f])
    && (forall f :: f in after ==> f in before || f in written)
  }

  // ----- the commands -----

  /** HSET: merge fields into a hash, creating it if absent; the expiry stays. */
  function HSet(st: Store, k: string, fields: map<string, string>): (r: Store)
    requires k !in st.data || st.data[k].Hash?
    ensures k in r.data && r.data[k].Hash?
    ensures forall f :: f in fields ==> f in r.data[k].fields && r.data[k].fields[f] == fields[f]
    ensures k in st.data ==> forall f :: f in st.data[k].fields && f !in fields ==> f in r.data[k].fields && r.data[k].fields[f] == st.data[k].fields[f]
    ensures k !in st.data ==> r.data[k].fields == fields
    ensures Stamped(FieldsOf(st, k), FieldsOf(r, k), fields)
    ensures Untouched(st, r, {k}) && r.expiry == st.expiry
    ensures Inv(st) && Typed(k, Hash(map[])) ==> Inv(r)
  {
    var before := if k in st.data then st.data[k].fields else map[];
    Store(st.data[k := Hash(before + fields)], st.expiry)
  }

  /** SET: store a string and discard any expiry the key had. */
  function Set(st: Store, k: string, v: string): (r: Store)
    ensures r.data == st.data[k := Str(v)] && k !in r.expiry
    ensures Untouched(st, r, {k})
    ensures Inv(st) && Typed(k, Str(v)) ==> Inv(r)
  {
    Store(st.data[k := Str(v)], st.expiry - {k})
  }

  /** SET with KEEPTTL: store a string and keep the key's expiry. */
  function SetKeepTtl(st: Store, k: string, v: string): (r: Store)
    ensures r.data == st.data[k := Str(v)] && r.expiry == st.expiry
    ensures Inv(st) && Typed(k, Str(v)) ==> Inv(r)
  {
    Store(st.data[k := Str(v)], st.expiry)
  }

  /** EXPIRE: a live key expires at `at`; a missing key is left alone. */
  function Expire(st: Store, k: string, at: int): (r: Store)
    ensures r.data == st.data
    ensures k in st.data ==> k in r.expiry && r.expiry[k] == at
    ensures k !in st.data ==> r == st
    ensures Untouched(st, r, {k})
    ensures Inv(st) ==> Inv(r)
  {
    if k in st.data then Store(st.data, st.expiry[k := at]) else st
  }

  /** DEL: remove the key, reporting how many keys went (0 or 1). */
  function Del(st: Store, k: string): (r: (Store, nat))
    ensures k !in r.0.data && k !in r.0.expiry
    ensures r.1 == if k in st.data then 1 else 0
    ensures Untouched(st, r.0, {k})
    ensures Inv(st) ==> Inv(r.0)
  {
    (Store(st.data - {k}, st.expiry - {k}), if k in st.data then 1 else 0)
  }

  /** The list a key holds, empty when absent. */
  function Items(st: Store, k: string): seq<Item> {
    if k in st.data && st.data[k].List? then st.data[k].items else []
  }

  /** RPUSH then LTRIM to the newest `MAX_MESSAGE_HISTORY` entries. The push
      creates an absent list without any expiry. */
  function PushBounded(st: Store, k: string, item: Item): (r: Store)
    requires k !in st.data || st.data[k].List?
    ensures k in r.data && r.data[k] == List(Seqs.LastN(Items(st, k) + [item], MAX_MESSAGE_HISTORY))
    ensures Untouched(st, r, {k}) && r.expiry == st.expiry
    ensures Inv(st) && Typed(k, List([])) ==> Inv(r)
  {
    var pushed := Items(st, k) + [item];
    var len := |pushed|;
    var kept := if len > MAX_MESSAGE_HISTORY then pushed[len - MAX_MESSAGE_HISTORY..] else pushed;
    assert kept == Seqs.LastN(pushed, MAX_MESSAGE_HISTORY);
    Store(st.data[k := List(kept)], st.expiry)
  }

  // ----- the manager -----

  datatype SessionMeta = SessionMeta(userId: string, sessionId: string, createdAt: string, lastActiveAt: string, currentAgent: string)

  function MetaFields(m: SessionMeta): map<string, string> {
    map["userId" := m.userId, "sessionId" := m.sessionId, "createdAt" := m.createdAt,
        "lastActiveAt" := m.lastActiveAt, "currentAgent" := m.currentAgent]
  }

  /** `Untouched` composes and widens. */
  lemma UntouchedChain(a: Store, b: Store, c: Store, ka: set<string>, kb: set<string>, keys: set<string>)
    requires Untouched(a, b, ka) && Untouched(b, c, kb) && ka <= keys && kb <= keys
    ensures Untouched(a, c, keys)
  {
  }

  /** `createSession`: a user id is required; the new session's metadata names
      the AI as its agent, and all three keys get the default expiry (a no-op
      for the history list, which does not exist yet). The metadata hash holds
      exactly the five fields for a fresh id, and no key outside the session's
      own three is touched. */
  function CreateSession(st: Store, userId: string, sessionId: string, stamp: string, now: int): (r: Result<(SessionMeta, Store), string>)
    requires Inv(st)
    ensures userId == "" <==> r == Err("userId is required to create a session.")
    ensures r.Ok? ==> r.value.0 == SessionMeta(userId, sessionId, stamp, stamp, "ai") && Inv(r.value.1)
    ensures r.Ok? ==> Untouched(st, r.value.1, SessionKeys(sessionId))
    ensures r.Ok? ==> (HistoryKey(sessionId) in r.value.1.data <==> HistoryKey(sessionId) in st.data)
    ensures r.Ok? ==>
              var st', mk, ak := r.value.1, MetaKey(sessionId), AgentKey(sessionId);
              && mk in st'.data && st'.data[mk].Hash?
              && (mk !in st.data ==> st'.data[mk].fields == MetaFields(r.value.0))
              && ak in st'.data && st'.data[ak] == Str("ai")
              && mk in st'.expiry && st'.expiry[mk] == now + DEFAULT_SESSION_TTL
              && ak in st'.expiry && st'.expiry[ak] == now + DEFAULT_SESSION_TTL
  {
    if userId == "" then Err("userId is required to create a session.")
    else
      KeyKinds(sessionId);
      KeysAreDistinct(sessionId, sessionId);
      var meta := SessionMeta(userId, sessionId, stamp, stamp, "ai");
      var s1 := HSet(st, MetaKey(sessionId), MetaFields(meta));
      var s2 := Set(s1, AgentKey(sessionId), "ai");
      var s3 := ExpireThree(s2, MetaKey(sessionId), AgentKey(sessionId), HistoryKey(sessionId), now + DEFAULT_SESSION_TTL);
      UntouchedChain(st, s1, s2, {MetaKey(sessionId)}, {AgentKey(sessionId)}, SessionKeys(sessionId));
      UntouchedChain(st, s2, s3, SessionKeys(sessionId), SessionKeys(sessionId), SessionKeys(sessionId));
      assert s2.data[MetaKey(sessionId)] == s1.data[MetaKey(sessionId)];
      Ok((meta, s3))
  }

  /** A pipeline of EXPIREs on three different keys: each of them that exists
      expires at `at`, and nothing else changes. */
  function ExpireThree(st: Store, a: string, b: string, c: string, at: int): (r: Store)
    requires a != b && a != c && b != c
    ensures r.data == st.data
    ensures a in st.data ==> a in r.expiry && r.expiry[a] == at
    ensures b in st.data ==> b in r.expiry && r.expiry[b] == at
    ensures c in st.data ==> c in r.expiry && r.expiry[c] == at
    ensures Untouched(st, r, {a, b, c})
    ensures Inv(st) ==> Inv(r)
  {
    var s1 := Expire(st, a, at);
    var s2 := Expire(s1, b, at);
    var s3 := Expire(s2, c, at);
    UntouchedChain(st, s1, s2, {a}, {b}, {a, b, c});
    UntouchedChain(st, s2, s3, {a, b, c}, {c}, {a, b, c});
    s3
  }

  /** `isSessionActive`: the metadata hash exists. */
  function IsSessionActive(st: Store, sessionId: string): (r: Result<bool, string>)
    ensures sessionId == "" <==> r == Err("sessionId is required.")
    ensures r.Ok? ==> (r.value <==> MetaKey(sessionId) in st.data)
  {
    if sessionId == "" then Err("sessionId is required.") else Ok(MetaKey(sessionId) in st.data)
  }

  /** `getSessionAgent`: the agent key's text, or none when it is absent. */
  function GetSessionAgent(st: Store, sessionId: string): (r: Result<Option<string>, string>)
    ensures sessionId == "" <==> r == Err("sessionId is required.")
    ensures r.Ok? && r.value.Some? ==> AgentKey(sessionId) in st.data && st.data[AgentKey(sessionId)] == Str(r.value.value)
    ensures r.Ok? && r.value.None? ==> AgentKey(sessionId) !in st.data || !st.data[AgentKey(sessionId)].Str?
  {
    if sessionId == "" then Err("sessionId is required.")
    else if AgentKey(sessionId) in st.data && st.data[AgentKey(sessionId)].Str? then Ok(Some(st.data[AgentKey(sessionId)].s))
    else Ok(None)
  }

  /** `switchAgent` as written: `SET` on the agent key, which discards the
      expiry `createSession` gave it, then three `HSET`s on the metadata. */
  function SwitchAgentAsWritten(st: Store, sessionId: string, newAgent: string, stamp: string): (r: Result<(string, Store), string>)
    requires Inv(st)
    ensures sessionId == "" || newAgent == "" <==> r == Err("sessionId and newAgent are required.")
    ensures r.Ok? ==> r.value.0 == newAgent && Inv(r.value.1) && AgentKey(sessionId) !in r.value.1.expiry
    ensures r.Ok? ==> AgentKey(sessionId) in r.value.1.data && r.value.1.data[AgentKey(sessionId)] == Str(newAgent)
    ensures r.Ok? ==> Stamped(FieldsOf(st, MetaKey(sessionId)), FieldsOf(r.value.1, MetaKey(sessionId)), SwitchFields(newAgent, stamp))
    ensures r.Ok? ==> Untouched(st, r.value.1, {AgentKey(sessionId), MetaKey(sessionId)})
  {
    if sessionId == "" || newAgent == "" then Err("sessionId and newAgent are required.")
    else
      KeyKinds(sessionId);
      KeysAreDistinct(sessionId, sessionId);
      var s1 := Set(st, AgentKey(sessionId), newAgent);
      var s2 := StampSwitch(s1, sessionId, newAgent, stamp);
      assert FieldsOf(s1, MetaKey(sessionId)) == FieldsOf(st, MetaKey(sessionId));
      UntouchedChain(st, s1, s2, {AgentKey(sessionId)}, {MetaKey(sessionId)}, {AgentKey(sessionId), MetaKey(sessionId)});
      Ok((newAgent, s2))
  }

  /** The three metadata fields a switch writes. The three single-field HSETs
      run back to back in one pipeline and name distinct fields, so they are
      one HSET of all three. */
  function StampSwitch(st: Store, sessionId: string, newAgent: string, stamp: string): (r: Store)
    requires Inv(st)
    ensures Inv(r) && r.expiry == st.expiry
    ensures Untouched(st, r, {MetaKey(sessionId)})
    ensures MetaKey(sessionId) in r.data && r.data[MetaKey(sessionId)].Hash?
    ensures var f := r.data[MetaKey(sessionId)].fields;
            && "currentAgent" in f && f["currentAgent"] == newAgent
            && "agentSwitchedAt" in f && f["agentSwitchedAt"] == stamp
            && "lastActiveAt" in f && f["lastActiveAt"] == stamp
    ensures Stamped(FieldsOf(st, MetaKey(sessionId)), FieldsOf(r, MetaKey(sessionId)), SwitchFields(newAgent, stamp))
  {
    KeyKinds(sessionId);
    HSet(st, MetaKey(sessionId), SwitchFields(newAgent, stamp))
  }

  /** The fields `switchAgent` stamps on the metadata. */
  function SwitchFields(newAgent: string, stamp: string): (f: map<string, string>)
    ensures f.Keys == {"currentAgent", "agentSwitchedAt", "lastActiveAt"}
    ensures f["currentAgent"] == newAgent && f["agentSwitchedAt"] == stamp && f["lastActiveAt"] == stamp
  {
    map["currentAgent" := newAgent, "agentSwitchedAt" := stamp, "lastActiveAt" := stamp]
  }

  /** `switchAgent` with the agent key's expiry kept (`SET … KEEPTTL`), so the
      agent key lives exactly as long as it did before. */
  function SwitchAgent(st: Store, sessionId: string, newAgent: string, stamp: string): (r: Result<(string, Store), string>)
    requires Inv(st)
    ensures sessionId == "" || newAgent == "" <==> r == Err("sessionId and newAgent are required.")
    ensures r.Ok? ==> r.value.0 == newAgent && Inv(r.value.1) && r.value.1.expiry == st.expiry
  {
    if sessionId == "" || newAgent == "" then Err("sessionId and newAgent are required.")
    else
      KeyKinds(sessionId);
      var s1 := SetKeepTtl(st, AgentKey(sessionId), newAgent);
      Ok((newAgent, StampSwitch(s1, sessionId, newAgent, stamp)))
  }

  /** After a switch, the session's agent is the new one, in the agent key and
      in the metadata alike. */
  lemma SwitchThenGetAgent(st: Store, sessionId: string, newAgent: string, stamp: string)
    requires Inv(st) && sessionId != "" && newAgent != ""
    ensures var st' := SwitchAgent(st, sessionId, newAgent, stamp).value.1;
            GetSessionAgent(st', sessionId) == Ok(Some(newAgent)) &&
            st'.data[MetaKey(sessionId)].fields["currentAgent"] == newAgent
  {
    KeysAreDistinct(sessionId, sessionId);
    var s1 := SetKeepTtl(st, AgentKey(sessionId), newAgent);
    assert SwitchAgent(st, sessionId, newAgent, stamp).value.1 == StampSwitch(s1, sessionId, newAgent, stamp);
  }

  /** The flaw: once the agent is switched, the agent key never expires, so it
      outlives the session it belongs to; with the expiry kept, both go
      together. */
  lemma StaleAgentOutlivesSession(st: Store, userId: string, sessionId: string, newAgent: string, stamp: string, now: int)
    requires Inv(st) && userId != "" && sessionId != "" && newAgent != ""
    ensures var created := CreateSession(st, userId, sessionId, stamp, now).value.1;
            var later := Tick(SwitchAgentAsWritten(created, sessionId, newAgent, stamp).value.1, now + DEFAULT_SESSION_TTL);
            MetaKey(sessionId) !in later.data && AgentKey(sessionId) in later.data
    ensures var created := CreateSession(st, userId, sessionId, stamp, now).value.1;
            var later := Tick(SwitchAgent(created, sessionId, newAgent, stamp).value.1, now + DEFAULT_SESSION_TTL);
            MetaKey(sessionId) !in later.data && AgentKey(sessionId) !in later.data
  {
    KeysAreDistinct(sessionId, sessionId);
    var created := CreateSession(st, userId, sessionId, stamp, now).value.1;
    var asWritten := SwitchAgentAsWritten(created, sessionId, newAgent, stamp).value.1;
    var fixed := SwitchAgent(created, sessionId, newAgent, stamp).value.1;
    assert MetaKey(sessionId) in asWritten.expiry && asWritten.expiry[MetaKey(sessionId)] == now + DEFAULT_SESSION_TTL;
    assert AgentKey(sessionId) in asWritten.data;
  }

  // ----- history -----

  const INVALID_MESSAGE := "Invalid message object structure. Required fields: id, from, text, timestamp."

  /** The four fields `addMessage` insists on, each non-empty. */
  predicate ValidMessage(m: Message) {
    m.id != "" && m.from != "" && m.text != "" && m.timestamp != ""
  }

  /** `extendSession`: stamp `lastActiveAt`, creating the hash if need be. */
  function ExtendSession(st: Store, sessionId: string, stamp: string): (r: Result<Store, string>)
    requires Inv(st)
    ensures sessionId == "" <==> r == Err("sessionId is required.")
    ensures r.Ok? ==> Inv(r.value) && r.value.expiry == st.expiry && Untouched(st, r.value, {MetaKey(sessionId)})
    ensures r.Ok? ==> MetaKey(sessionId) in r.value.data && r.value.data[MetaKey(sessionId)].Hash? &&
                      "lastActiveAt" in r.value.data[MetaKey(sessionId)].fields &&
                      r.value.data[MetaKey(sessionId)].fields["lastActiveAt"] == stamp
    ensures r.Ok? ==> Stamped(FieldsOf(st, MetaKey(sessionId)), FieldsOf(r.value, MetaKey(sessionId)), map["lastActiveAt" := stamp])
  {
    if sessionId == "" then Err("sessionId is required.")
    else
      KeyKinds(sessionId);
      Ok(HSet(st, MetaKey(sessionId), map["lastActiveAt" := stamp]))
  }

  /** `addMessage`: the session id, a message with all four fields, and a live
      session are required (the last failure is reported through the outer
      catch, hence its prefix); the message's JSON goes to the end of the
      history, which is cut back to the newest `MAX_MESSAGE_HISTORY`, and the
      session is extended. `None` stands for a value that is not an object. */
  function AddMessage(st: Store, sessionId: string, message: Option<Message>, stamp: string): (r: Result<(string, Store), string>)
    requires Inv(st)
    ensures sessionId == "" ==> r == Err("sessionId is required to add a message.")
    ensures sessionId != "" && (message.None? || !ValidMessage(message.value)) ==> r == Err(INVALID_MESSAGE)
    ensures sessionId != "" && message.Some? && ValidMessage(message.value) && MetaKey(sessionId) !in st.data ==>
              r == Err("Failed to add message: Session " + sessionId + " does not exist or has expired.")
    ensures r.Ok? <==> sessionId != "" && message.Some? && ValidMessage(message.value) && MetaKey(sessionId) in st.data
    ensures r.Ok? ==> r.value.0 == message.value.id && Inv(r.value.1)
  {
    if sessionId == "" then Err("sessionId is required to add a message.")
    else if message.None? || !ValidMessage(message.value) then Err(INVALID_MESSAGE)
    else if MetaKey(sessionId) !in st.data then
      Err("Failed to add message: Session " + sessionId + " does not exist or has expired.")
    else
      KeyKinds(sessionId);
      var pushed := PushBounded(st, HistoryKey(sessionId), Json(message.value));
      match ExtendSession(pushed, sessionId, stamp)
      case Ok(extended) => Ok((message.value.id, extended))
      case Err(e) => Err(e)
  }

  /** What an added message leaves: the history is the old one plus the new
      message, cut to the newest `MAX_MESSAGE_HISTORY`; the session is
      stamped; no expiry changes and no other key is touched. */
  lemma AddMessageEffect(st: Store, sessionId: string, m: Message, stamp: string)
    requires Inv(st) && sessionId != "" && ValidMessage(m) && MetaKey(sessionId) in st.data
    ensures var st' := AddMessage(st, sessionId, Some(m), stamp).value.1;
            var hk := HistoryKey(sessionId);
            hk in st'.data && st'.data[hk] == List(Seqs.LastN(Items(st, hk) + [Json(m)], MAX_MESSAGE_HISTORY)) &&
            st'.data[MetaKey(sessionId)].fields["lastActiveAt"] == stamp &&
            Stamped(FieldsOf(st, MetaKey(sessionId)), FieldsOf(st', MetaKey(sessionId)), map["lastActiveAt" := stamp]) &&
            st'.expiry == st.expiry && Untouched(st, st', {MetaKey(sessionId), hk})
  {
    var mk, hk := MetaKey(sessionId), HistoryKey(sessionId);
    KeysAreDistinct(sessionId, sessionId);
    KeyKinds(sessionId);
    var pushed := PushBounded(st, hk, Json(m));
    var st' := HSet(pushed, mk, map["lastActiveAt" := stamp]);
    assert AddMessage(st, sessionId, Some(m), stamp).value.1 == st';
    assert FieldsOf(pushed, mk) == FieldsOf(st, mk);
    UntouchedChain(st, pushed, st', {hk}, {mk}, {mk, hk});
  }

  /** The history never holds more than `MAX_MESSAGE_HISTORY` entries, ends
      with the message just added, and keeps the older ones that fit, in
      order. */
  lemma HistoryKeepsNewest(st: Store, sessionId: string, m: Message, stamp: string)
    requires Inv(st) && sessionId != "" && ValidMessage(m) && MetaKey(sessionId) in st.data
    ensures var h := Items(AddMessage(st, sessionId, Some(m), stamp).value.1, HistoryKey(sessionId));
            var before := Items(st, HistoryKey(sessionId));
            |h| == (if |before| < MAX_MESSAGE_HISTORY then |before| + 1 else MAX_MESSAGE_HISTORY) &&
            h[|h| - 1] == Json(m) && Seqs.IsSuffix(h[..|h| - 1], before)
  {
    AddMessageEffect(st, sessionId, m, stamp);
    Seqs.LastNAppend(Items(st, HistoryKey(sessionId)), Json(m), MAX_MESSAGE_HISTORY);
  }

  /** The list the first message creates has no expiry, although the session's
      other keys have one. */
  lemma FirstMessageHistoryHasNoExpiry(st: Store, sessionId: string, m: Message, stamp: string)
    requires Inv(st) && sessionId != "" && ValidMessage(m) && MetaKey(sessionId) in st.data
    requires HistoryKey(sessionId) !in st.data
    ensures var st' := AddMessage(st, sessionId, Some(m), stamp).value.1;
            HistoryKey(sessionId) in st'.data && HistoryKey(sessionId) !in st'.expiry
  {
    AddMessageEffect(st, sessionId, m, stamp);
  }

  /** A history entry as `getHistory` returns it: the parsed message, or an
      error object holding the raw text. */
  datatype Entry = Parsed(m: Message) | Unparseable(error: string, raw: string)

  function Parse(item: Item): (e: Entry)
    ensures item.Json? <==> e.Parsed?
    ensures item.Json? ==> e == Parsed(item.m)
    ensures item.Raw? ==> e == Unparseable("Failed to parse message data", item.text)
  {
    match item
    case Json(m) => Parsed(m)
    case Raw(t) => Unparseable("Failed to parse message data", t)
  }

  /** `getHistory`: a non-positive limit gives nothing without reading;
      otherwise the last `limit` entries (all of them when fewer), oldest
      first, each parsed in place. `None` stands for a call without a limit,
      which reads `DEFAULT_HISTORY_LIMIT` entries. */
  function GetHistory(st: Store, sessionId: string, limit: Option<int>): (r: Result<seq<Entry>, string>)
    ensures sessionId == "" <==> r == Err("sessionId is required to get history.")
    ensures sessionId != "" && limit.Some? && limit.value <= 0 ==> r == Ok([])
    ensures sessionId != "" && (limit.None? || limit.value > 0) ==>
              var n := if limit.Some? then limit.value else DEFAULT_HISTORY_LIMIT;
              var items := Items(st, HistoryKey(sessionId));
              r.Ok? && |r.value| == (if n < |items| then n else |items|) &&
              forall i :: 0 <= i < |r.value| ==> r.value[i] == Parse(items[|items| - |r.value| + i])
  {
    var n := limit.GetOr(DEFAULT_HISTORY_LIMIT);
    if sessionId == "" then Err("sessionId is required to get history.")
    else if n <= 0 then Ok([])
    else
      Ok(ParseLast(Items(st, HistoryKey(sessionId)), n))
  }

  /** The last `n` items, each parsed in place. */
  function ParseLast(items: seq<Item>, n: nat): (r: seq<Entry>)
    ensures |r| == if n < |items| then n else |items|
    ensures forall i :: 0 <= i < |r| ==> r[i] == Parse(items[|items| - |r| + i])
  {
    var k := if n < |items| then n else |items|;
    seq(k, i requires 0 <= i < k => Parse(items[|items| - k + i]))
  }

  /** Reading the history right after adding a message ends with that
      message, parsed. */
  lemma AddThenGetHistory(st: Store, sessionId: string, m: Message, stamp: string, limit: int)
    requires Inv(st) && sessionId != "" && ValidMessage(m) && MetaKey(sessionId) in st.data && limit > 0
    ensures var r := GetHistory(AddMessage(st, sessionId, Some(m), stamp).value.1, sessionId, Some(limit));
            r.Ok? && |r.value| >= 1 && |r.value| <= MAX_MESSAGE_HISTORY && r.value[|r.value| - 1] == Parsed(m)
  {
    HistoryKeepsNewest(st, sessionId, m, stamp);
  }

  // ----- expiry and deletion -----

  /** `setSessionTTL`: a positive number of seconds and a live session are
      required; all three keys that exist then expire that many seconds from
      `now`. `None` stands for a value that is not a number. */
  function SetSessionTtl(st: Store, sessionId: string, ttlInSeconds: Option<int>, now: int): (r: Result<Store, string>)
    requires Inv(st)
    ensures sessionId == "" ==> r == Err("sessionId is required.")
    ensures sessionId != "" && (ttlInSeconds.None? || ttlInSeconds.value <= 0) ==> r == Err("ttlInSeconds must be a positive number.")
    ensures sessionId != "" && ttlInSeconds.Some? && ttlInSeconds.value > 0 && MetaKey(sessionId) !in st.data ==>
              r == Err("Failed to set session TTL: Session " + sessionId + " not found or has already expired.")
    ensures r.Ok? <==> sessionId != "" && ttlInSeconds.Some? && ttlInSeconds.value > 0 && MetaKey(sessionId) in st.data
    ensures r.Ok? ==> Inv(r.value) && r.value.data == st.data && Untouched(st, r.value, SessionKeys(sessionId))
    ensures r.Ok? ==> forall k :: k in SessionKeys(sessionId) && k in st.data ==> k in r.value.expiry && r.value.expiry[k] == now + ttlInSeconds.value
  {
    if sessionId == "" then Err("sessionId is required.")
    else if ttlInSeconds.None? || ttlInSeconds.value <= 0 then Err("ttlInSeconds must be a positive number.")
    else if MetaKey(sessionId) !in st.data then
      Err("Failed to set session TTL: Session " + sessionId + " not found or has already expired.")
    else
      KeysAreDistinct(sessionId, sessionId);
      Ok(ExpireThree(st, MetaKey(sessionId), AgentKey(sessionId), HistoryKey(sessionId), now + ttlInSeconds.value))
  }

  /** After `setSessionTTL` the session is live up to the last second before
      `now + ttl` and all three keys are gone at it. */
  lemma SessionLivesForTtl(st: Store, sessionId: string, ttl: int, now: int)
    requires Inv(st) && sessionId != "" && ttl > 0 && MetaKey(sessionId) in st.data
    ensures var st' := SetSessionTtl(st, sessionId, Some(ttl), now).value;
            MetaKey(sessionId) in Tick(st', now + ttl - 1).data &&
            forall k :: k in SessionKeys(sessionId) ==> k !in Tick(st', now + ttl).data
  {
  }

  /** `deleteSession`: delete the three keys, reporting how many existed. */
  function DeleteSession(st: Store, sessionId: string): (r: Result<(nat, Store), string>)
    requires Inv(st)
    ensures sessionId == "" <==> r == Err("sessionId is required.")
    ensures r.Ok? ==> Inv(r.value.1) && Untouched(st, r.value.1, SessionKeys(sessionId))
    ensures r.Ok? ==> forall k :: k in SessionKeys(sessionId) ==> k !in r.value.1.data && k !in r.value.1.expiry
    ensures r.Ok? ==> r.value.0 == Indicator(MetaKey(sessionId) in st.data) + Indicator(AgentKey(sessionId) in st.data)
                                   + Indicator(HistoryKey(sessionId) in st.data)
  {
    if sessionId == "" then Err("sessionId is required.")
    else
      KeysAreDistinct(sessionId, sessionId);
      var (s, n) := DelThree(st, MetaKey(sessionId), AgentKey(sessionId), HistoryKey(sessionId));
      Ok((n, s))
  }

  function Indicator(b: bool): nat { if b then 1 else 0 }

  /** A pipeline of DELs on three different keys: all three are gone, nothing
      else changes, and the replies add up to the number that existed. */
  function DelThree(st: Store, a: string, b: string, c: string): (r: (Store, nat))
    requires a != b && a != c && b != c
    ensures a !in r.0.data && b !in r.0.data && c !in r.0.data
    ensures a !in r.0.expiry && b !in r.0.expiry && c !in r.0.expiry
    ensures r.1 == Indicator(a in st.data) + Indicator(b in st.data) + Indicator(c in st.data)
    ensures Untouched(st, r.0, {a, b, c})
    ensures Inv(st) ==> Inv(r.0)
  {
    var (s1, n1) := Del(st, a);
    var (s2, n2) := Del(s1, b);
    var (s3, n3) := Del(s2, c);
    assert (b in s1.data) == (b in st.data) && (c in s2.data) == (c in s1.data) == (c in st.data);
    UntouchedChain(st, s1, s2, {a}, {b}, {a, b, c});
    UntouchedChain(st, s2, s3, {a, b, c}, {c}, {a, b, c});
    (s3, n1 + n2 + n3)
  }

  lemma {:induction false} ThreeInSet<T>(a: T, b: T, c: T, keys: set<T>)
    requires a != b && a != c && b != c
    ensures |{a, b, c} * keys| == Indicator(a in keys) + Indicator(b in keys) + Indicator(c in keys)
  {
    var none: set<T> := {};
    OneMoreInSet(none, a, keys);
    assert none * keys == none && none + {a} == {a};
    OneMoreInSet({a}, b, keys);
    assert {a} + {b} == {a, b};
    OneMoreInSet({a, b}, c, keys);
    assert {a, b} + {c} == {a, b, c};
  }

  lemma OneMoreInSet<T>(s: set<T>, x: T, keys: set<T>)
    requires x !in s
    ensures |(s + {x}) * keys| == |s * keys| + Indicator(x in keys)
  {
    if x in keys {
      assert (s + {x}) * keys == s * keys + {x};
    } else {
      assert (s + {x}) * keys == s * keys;
    }
  }

  /** The reported count is the number of the session's keys that existed. */
  lemma DeleteCountsExistingKeys(st: Store, sessionId: string)
    requires Inv(st) && sessionId != ""
    ensures DeleteSession(st, sessionId).value.0 == |SessionKeys(sessionId) * st.data.Keys|
  {
    KeysAreDistinct(sessionId, sessionId);
    ThreeInSet(MetaKey(sessionId), AgentKey(sessionId), HistoryKey(sessionId), st.data.Keys);
  }

  // ----- cleanup -----

  /** The keys `KEYS session:*:meta` lists. */
  function MetaKeysOf(st: Store): set<string> {
    set k | k in st.data && MatchesMetaPattern(k)
  }

  /** A listed key whose session `deleteSession` accepts: its second field is
      present and non-empty (an empty id makes `deleteSession` throw, which
      the loop logs and does not count). */
  predicate Cleanable(k: string) {
    SecondField(k).Some? && SecondField(k).value != ""
  }

  /** All keys of the given sessions. */
  function KeysOfSessions(ids: set<string>): set<string> {
    (set id | id in ids :: MetaKey(id)) + (set id | id in ids :: AgentKey(id)) + (set id | id in ids :: HistoryKey(id))
  }

  /** The number of sessions a cleanup deleted, and the store after it. */
  datatype Cleaned = Cleaned(count: nat, store: Store)

  /** `cleanupExpiredSessions`: list the metadata keys of `st`, then, at `now`,
      delete the session of every listed key whose TTL reads -2 (the key no
      longer exists) and count those. */
  function CleanupExpiredSessions(st: Store, now: int): (r: Cleaned)
    requires Inv(st)
    ensures Inv(r.store)
    ensures r.count <= |MetaKeysOf(st)|
    ensures forall k :: k in r.store.data ==> k in st.data
  {
    var later := Tick(st, now);
    var dead := set k | k in MetaKeysOf(st) && k !in later.data && Cleanable(k);
    MultiIndex.SubsetCardinality(dead, MetaKeysOf(st));
    Cleaned(|dead|, RemoveKeys(later, KeysOfSessions(SessionIdsOf(dead))))
  }

  /** The session ids named by cleanable listed keys. */
  function SessionIdsOf(keys: set<string>): (ids: set<string>)
    requires forall k :: k in keys ==> SecondField(k).Some?
    ensures forall k :: k in keys ==> SecondField(k).value in ids
    ensures keys == {} ==> ids == {}
  {
    set k | k in keys :: SecondField(k).value
  }

  /** Several DELs at once. */
  function RemoveKeys(st: Store, gone: set<string>): (r: Store)
    requires Inv(st)
    ensures Inv(r)
    ensures forall k :: k in r.data <==> k in st.data && k !in gone
    ensures forall k :: k in r.data ==> r.data[k] == st.data[k]
  {
    Store(st.data - gone, st.expiry - gone)
  }


  /** Listing and checking at the same instant finds nothing expired, so the
      cleanup counts nothing and deletes nothing. */
  lemma CleanupAtListingTimeCleansNothing(st: Store, now: int)
    requires Inv(st)
    requires forall k :: k in st.expiry ==> st.expiry[k] > now
    ensures CleanupExpiredSessions(st, now).count == 0
    ensures forall k :: k in st.data ==> k in CleanupExpiredSessions(st, now).store.data
  {
    var later := Tick(st, now);
    var dead := set k | k in MetaKeysOf(st) && k !in later.data && Cleanable(k);
    assert forall k :: k in st.data ==> k in later.data;
    assert dead == {};
    assert KeysOfSessions({}) == {};
  }

  /** A session whose metadata key expired after the listing is removed
      entirely, whatever expiry its other keys had. */
  lemma CleanupDeletesExpiredSession(st: Store, now: int, id: string)
    requires Inv(st) && id != "" && ':' !in id
    requires MetaKey(id) in st.expiry && st.expiry[MetaKey(id)] <= now
    ensures forall k :: k in SessionKeys(id) ==> k !in CleanupExpiredSessions(st, now).store.data
    ensures CleanupExpiredSessions(st, now).count >= 1
  {
    var k := MetaKey(id);
    var later := Tick(st, now);
    MetaPatternIsMetaKey(k);
    SecondFieldOfMetaKey(id);
    var dead := set k | k in MetaKeysOf(st) && k !in later.data && Cleanable(k);
    assert k in dead;
    assert id in SessionIdsOf(dead);
  }

  /** Every listed session id is colon-free, as `uuidv4` ids are. */
  predicate ColonFreeIds(st: Store) {
    forall k :: k in st.data && MatchesMetaPattern(k) ==> ':' !in k[8..|k| - 5]
  }

  /** A matching key with a colon-free id names that id's session. */
  lemma ListedKeyNamesItsSession(k: string)
    requires MatchesMetaPattern(k) && ':' !in k[8..|k| - 5]
    ensures k == MetaKey(k[8..|k| - 5]) && SecondField(k) == Some(k[8..|k| - 5])
  {
    var x := k[8..|k| - 5];
    assert k == k[..8] + x + k[|k| - 5..];
    SecondFieldOfMetaKey(x);
  }

  /** Sessions other than `id` own none of `id`'s keys. */
  lemma OthersOwnNoneOf(ids: set<string>, id: string)
    requires id !in ids
    ensures forall k :: k in SessionKeys(id) ==> k !in KeysOfSessions(ids)
  {
    forall x | x in ids
      ensures MetaKey(x) !in SessionKeys(id) && AgentKey(x) !in SessionKeys(id) && HistoryKey(x) !in SessionKeys(id)
    {
      KeysAreDistinct(x, id);
      KeysAreDistinct(id, x);
    }
  }

  /** With colon-free ids, cleanup leaves a session whose keys are all still
      live untouched. */
  lemma CleanupKeepsLiveSession(st: Store, now: int, id: string)
    requires Inv(st) && ColonFreeIds(st) && MetaKey(id) in st.data
    requires forall k :: k in SessionKeys(id) && k in st.expiry ==> st.expiry[k] > now
    ensures forall k :: k in SessionKeys(id) && k in st.data ==> k in CleanupExpiredSessions(st, now).store.data
  {
    var later := Tick(st, now);
    var dead := set k | k in MetaKeysOf(st) && k !in later.data && Cleanable(k);
    var ids := set k | k in dead :: SecondField(k).value;
    assert MetaKey(id) in later.data;
    forall k | k in dead
      ensures SecondField(k).value != id
    {
      ListedKeyNamesItsSession(k);
    }
    OthersOwnNoneOf(ids, id);
  }
}
