/** The AI service's DashScope client: construction, `sendMessage` with its
    retry and per-session context, the knowledge-base lookup and call, and the
    priority query over several knowledge bases.

    The chat-completion endpoint is an oracle `completion(n)` giving the reply
    of the n-th call, or `None` when that call throws. The knowledge-base HTTP
    call is an oracle per knowledge-base id; `SimulatedCall` is the response the
    client currently fabricates. Timestamps are left out. */
module DashScope {
  import opened Wrappers
  import Seqs
  import StableSort
  import ContextWindow

  const MAX_CONTEXT_MESSAGES := 10
  const RETRY_DELAY_MS := 1000
  const DEFAULT_MODEL := "qwen-plus"

  type ChatMessage = ContextWindow.ChatMessage

  datatype KbConfig = KbConfig(id: string, name: string, priority: Option<int>)

  datatype Client = Client(contexts: map<string, seq<ChatMessage>>, kbs: seq<KbConfig>, model: string)

  datatype ClientError = ApiKeyRequired

  /** The constructor: an API key is required; missing configs are an empty
      list and a missing model is the default one. */
  function NewClient(apiKey: string, kbs: Option<seq<KbConfig>>, model: string): (r: Result<Client, ClientError>)
    ensures apiKey == "" <==> r.Err?
    ensures r.Ok? ==> r.value.contexts == map[] && r.value.kbs == kbs.GetOr([])
    ensures r.Ok? ==> r.value.model == (if model == "" then DEFAULT_MODEL else model)
  {
    if apiKey == "" then Err(ApiKeyRequired)
    else Ok(Client(map[], kbs.GetOr([]), if model == "" then DEFAULT_MODEL else model))
  }

  // ----- sendMessage -----

  datatype SendError = RetriesExhausted

  /** The reply, the client afterwards, how many completion calls were made and
      how many `RETRY_DELAY_MS` waits came between them. */
  datatype Sent = Sent(reply: Result<string, SendError>, client: Client, attempts: nat, waits: nat)

  /** The context a session has before the call (none yet reads as empty). */
  function ContextOf(c: Client, sessionId: string): seq<ChatMessage> {
    if sessionId in c.contexts then c.contexts[sessionId] else []
  }

  /** The context after a successful exchange. */
  function Exchanged(prev: seq<ChatMessage>, text: string, reply: string): seq<ChatMessage> {
    ContextWindow.ManageContext(Some(prev), Some(ContextWindow.ChatMessage("user", text)),
                                Some(ContextWindow.ChatMessage("assistant", reply)), MAX_CONTEXT_MESSAGES)
  }

  /** `sendMessage(sessionId, text, retries)`: a session's context is created on
      first use; a successful call stores the new turn through `manageContext`;
      a failed call waits and tries again while `retries` is positive, then
      gives up. Every call sends the same context plus the user message. */
  function SendMessage(c: Client, sessionId: string, text: string, retries: int, completion: nat -> Option<string>, made: nat): (r: Sent)
    ensures 1 <= r.attempts <= 1 + (if retries > 0 then retries else 0)
    ensures r.waits == r.attempts - 1
    ensures forall n :: made <= n < made + r.attempts - 1 ==> completion(n).None?
    ensures r.reply.Ok? <==> completion(made + r.attempts - 1).Some?
    ensures r.reply.Ok? ==> completion(made + r.attempts - 1) == Some(r.reply.value)
    ensures r.reply.Err? ==> r.attempts == 1 + (if retries > 0 then retries else 0)
    ensures r.client.contexts.Keys == c.contexts.Keys + {sessionId}
    ensures forall s :: s in c.contexts && s != sessionId ==> r.client.contexts[s] == c.contexts[s]
    ensures r.reply.Ok? ==> r.client.contexts[sessionId] == Exchanged(ContextOf(c, sessionId), text, r.reply.value)
    ensures r.reply.Err? ==> r.client.contexts[sessionId] == ContextOf(c, sessionId)
    ensures r.client.kbs == c.kbs && r.client.model == c.model
    decreases if retries > 0 then retries else 0
  {
    var prev := ContextOf(c, sessionId);
    var started := c.(contexts := c.contexts[sessionId := prev]);
    match completion(made)
    case Some(content) =>
      Sent(Ok(content), started.(contexts := started.contexts[sessionId := Exchanged(prev, text, content)]), 1, 0)
    case None =>
      if retries > 0 then
        var rest := SendMessage(started, sessionId, text, retries - 1, completion, made + 1);
        Sent(rest.reply, rest.client, rest.attempts + 1, rest.waits + 1)
      else Sent(Err(RetriesExhausted), started, 1, 0)
  }

  /** Every stored context stays within `MAX_CONTEXT_MESSAGES`. */
  ghost predicate ContextsBounded(c: Client) {
    forall s :: s in c.contexts ==> |c.contexts[s]| <= MAX_CONTEXT_MESSAGES
  }

  lemma SendMessageKeepsContextsBounded(c: Client, sessionId: string, text: string, retries: int, completion: nat -> Option<string>, made: nat)
    requires ContextsBounded(c)
    ensures ContextsBounded(SendMessage(c, sessionId, text, retries, completion, made).client)
  {
    var r := SendMessage(c, sessionId, text, retries, completion, made);
    forall s | s in r.client.contexts
      ensures |r.client.contexts[s]| <= MAX_CONTEXT_MESSAGES
    {
      if s != sessionId {
        assert r.client.contexts[s] == c.contexts[s];
      }
    }
  }

  /** The default call: two attempts in all; a persistent failure throws after
      the second, and a failure followed by a success returns the second reply. */
  lemma DefaultRetryIsTwoAttempts(c: Client, sessionId: string, text: string, completion: nat -> Option<string>)
    ensures SendMessage(c, sessionId, text, 1, completion, 0).attempts <= 2
    ensures completion(0).None? && completion(1).None? ==> SendMessage(c, sessionId, text, 1, completion, 0).reply == Err(RetriesExhausted)
    ensures completion(0).None? && completion(1).Some? ==> SendMessage(c, sessionId, text, 1, completion, 0).reply == Ok(completion(1).value)
  {
  }

  // ----- knowledge bases -----

  /** `getKnowledgeBaseById`: the first config with that id; none for an empty id. */
  function GetKnowledgeBaseById(kbs: seq<KbConfig>, id: string): (r: Option<KbConfig>)
    ensures r.Some? ==> id != "" && r.value in kbs && r.value.id == id
    ensures r.None? ==> id == "" || forall i :: 0 <= i < |kbs| ==> kbs[i].id != id
    ensures r.Some? ==> exists i :: 0 <= i < |kbs| && kbs[i] == r.value && forall j :: 0 <= j < i ==> kbs[j].id != id
  {
    if id == "" then None
    else match FirstWithId(kbs, id)
      case None => None
      case Some(i) => Some(kbs[i])
  }

  function FirstWithId(kbs: seq<KbConfig>, id: string): (r: Option<nat>)
    ensures r.Some? ==> r.value < |kbs| && kbs[r.value].id == id && forall j :: 0 <= j < r.value ==> kbs[j].id != id
    ensures r.None? ==> forall j :: 0 <= j < |kbs| ==> kbs[j].id != id
  {
    if |kbs| == 0 then None
    else if kbs[0].id == id then Some(0)
    else match FirstWithId(kbs[1..], id)
      case None => None
      case Some(i) => Some(i + 1)
  }

  /** What the knowledge-base endpoint gave back: nothing, an error response, or
      a response with its `data` text. */
  datatype Raw = NoResponse | RawFailure(error: string) | RawData(data: string)

  datatype Exec = Throws(message: string) | Returns(raw: Raw)

  /** The response the client fabricates in place of a real call. */
  function SimulatedCall(query: string): Exec {
    Returns(RawData("Knowledge base response for query: " + query))
  }

  /** A response's data: its text, or the whole response when the text is empty. */
  datatype KbData = Text(text: string) | WholeResponse

  datatype KbResult = KbSuccess(data: KbData, query: string, knowledgeId: string) | KbFailure(error: string)

  /** `formatKnowledgeResponse`. */
  function FormatKnowledgeResponse(raw: Raw, query: string, id: string): (r: KbResult)
    ensures raw.NoResponse? ==> r == KbFailure("Empty response from knowledge base")
    ensures raw.RawFailure? ==> r == KbFailure(raw.error)
    ensures raw.RawData? ==> r.KbSuccess? && r.query == query && r.knowledgeId == id
    ensures raw.RawData? ==> (r.data == Text(raw.data) <==> raw.data != "")
  {
    match raw
    case NoResponse => KbFailure("Empty response from knowledge base")
    case RawFailure(e) => KbFailure(e)
    case RawData(d) => KbSuccess(if d != "" then Text(d) else WholeResponse, query, id)
  }

  const ID_REQUIRED := "knowledgeId is required for callKnowledge."

  /** `callKnowledge`: throws (`Err`) for an empty id or when the endpoint
      throws; an id missing from the configuration is a failure result and no
      call is made. */
  function CallKnowledge(kbs: seq<KbConfig>, query: string, id: string, exec: Exec): (r: Result<KbResult, string>)
    ensures id == "" ==> r == Err(ID_REQUIRED)
    ensures id != "" && GetKnowledgeBaseById(kbs, id).None? ==>
              r == Ok(KbFailure("Invalid knowledgeId: \"" + id + "\" not found in configuration."))
    ensures id != "" && GetKnowledgeBaseById(kbs, id).Some? && exec.Throws? ==>
              r == Err("Failed to get response from Knowledge Base: " + exec.message)
    ensures id != "" && GetKnowledgeBaseById(kbs, id).Some? && exec.Returns? ==>
              r == Ok(FormatKnowledgeResponse(exec.raw, query, id))
  {
    if id == "" then Err(ID_REQUIRED)
    else if GetKnowledgeBaseById(kbs, id).None? then
      Ok(KbFailure("Invalid knowledgeId: \"" + id + "\" not found in configuration."))
    else match exec
      case Throws(m) => Err("Failed to get response from Knowledge Base: " + m)
      case Returns(raw) => Ok(FormatKnowledgeResponse(raw, query, id))
  }

  /** A call succeeds exactly when the id is configured and the endpoint
      returns data; an empty or unconfigured id never reaches the endpoint, so
      its result does not depend on what the endpoint would do. */
  lemma KnowledgeSuccessIff(kbs: seq<KbConfig>, query: string, id: string, exec: Exec, other: Exec)
    ensures (CallKnowledge(kbs, query, id, exec).Ok? && CallKnowledge(kbs, query, id, exec).value.KbSuccess?) <==>
              (id != "" && (exists i :: 0 <= i < |kbs| && kbs[i].id == id) && exec.Returns? && exec.raw.RawData?)
    ensures (id == "" || forall i :: 0 <= i < |kbs| ==> kbs[i].id != id) ==>
              CallKnowledge(kbs, query, id, exec) == CallKnowledge(kbs, query, id, other)
  {
    if id != "" && exists i :: 0 <= i < |kbs| && kbs[i].id == id {
      var i :| 0 <= i < |kbs| && kbs[i].id == id;
      assert GetKnowledgeBaseById(kbs, id).Some?;
    }
  }

  /** With the fabricated response, a configured id always succeeds. */
  lemma ConfiguredIdSucceeds(kbs: seq<KbConfig>, query: string, id: string)
    requires id != "" && exists i :: 0 <= i < |kbs| && kbs[i].id == id
    ensures CallKnowledge(kbs, query, id, SimulatedCall(query)) ==
              Ok(KbSuccess(Text("Knowledge base response for query: " + query), query, id))
  {
  }

  // ----- queryKnowledgeWithPriority -----

  /** One collected result and the priority it is ranked by. */
  datatype Entry = Entry(knowledgeId: string, result: KbResult, priority: int)

  datatype QueryResponse =
    | FirstHit(result: KbResult)
    | AllResults(query: string, strategy: string, results: seq<Entry>)
    | NoSuccess(query: string, strategy: string, attempts: nat)

  /** The response, the ids called in order, and the configs afterwards (the
      default ordering sorts the client's own list). */
  datatype Queried = Queried(response: QueryResponse, calls: seq<string>, kbs: seq<KbConfig>)

  /** The sort key of the default ordering (`priority || 0`). */
  function PriorityOrZero(kb: KbConfig): int {
    kb.priority.GetOr(0)
  }

  /** The rank a result gets (`priority || 999`): a missing config, a missing
      priority and a zero priority all rank 999. */
  function Rank(kbs: seq<KbConfig>, id: string): (p: int)
    ensures p != 0
    ensures GetKnowledgeBaseById(kbs, id).None? ==> p == 999
    ensures GetKnowledgeBaseById(kbs, id).Some? ==>
              var k := PriorityOrZero(GetKnowledgeBaseById(kbs, id).value);
              p == if k != 0 then k else 999
  {
    match GetKnowledgeBaseById(kbs, id)
    case None => 999
    case Some(kb) => if kb.priority.None? || kb.priority.value == 0 then 999 else kb.priority.value
  }

  function EntryPriority(e: Entry): int {
    e.priority
  }

  /** What one call contributes: its result, or the thrown message as a failure. */
  function Outcome(kbs: seq<KbConfig>, query: string, id: string, exec: string -> Exec): KbResult {
    match CallKnowledge(kbs, query, id, exec(id))
    case Ok(res) => res
    case Err(m) => KbFailure(m)
  }

  /** Whether the call for `id` returns a successful result. */
  predicate Hits(kbs: seq<KbConfig>, query: string, id: string, exec: string -> Exec) {
    CallKnowledge(kbs, query, id, exec(id)).Ok? && CallKnowledge(kbs, query, id, exec(id)).value.KbSuccess?
  }

  /** A call succeeds exactly when the result it contributes is a success. */
  lemma HitsIffSuccess(kbs: seq<KbConfig>, query: string, id: string, exec: string -> Exec)
    ensures Hits(kbs, query, id, exec) <==> Outcome(kbs, query, id, exec).KbSuccess?
  {
  }

  /** What calling each id in turn gives, with the rank each result gets. */
  function Entries(kbs: seq<KbConfig>, query: string, ids: seq<string>, exec: string -> Exec): (r: seq<Entry>)
    ensures |r| == |ids|
    ensures forall i :: 0 <= i < |ids| ==> r[i].knowledgeId == ids[i] && r[i].priority == Rank(kbs, ids[i])
    ensures forall i :: 0 <= i < |ids| && CallKnowledge(kbs, query, ids[i], exec(ids[i])).Ok? ==>
              r[i].result == CallKnowledge(kbs, query, ids[i], exec(ids[i])).value
    ensures forall i :: 0 <= i < |ids| && CallKnowledge(kbs, query, ids[i], exec(ids[i])).Err? ==>
              r[i].result == KbFailure(CallKnowledge(kbs, query, ids[i], exec(ids[i])).error)
  {
    seq(|ids|, i requires 0 <= i < |ids| => Entry(ids[i], Outcome(kbs, query, ids[i], exec), Rank(kbs, ids[i])))
  }

  /** Calling two lists of ids in turn gives their entries one after the
      other. */
  lemma EntriesSplit(kbs: seq<KbConfig>, query: string, a: seq<string>, b: seq<string>, exec: string -> Exec)
    ensures Entries(kbs, query, a + b, exec) == Entries(kbs, query, a, exec) + Entries(kbs, query, b, exec)
  {
    var whole := Entries(kbs, query, a + b, exec);
    var parts := Entries(kbs, query, a, exec) + Entries(kbs, query, b, exec);
    forall i | 0 <= i < |whole|
      ensures whole[i] == parts[i]
    {
      if i >= |a| {
        assert (a + b)[i] == b[i - |a|];
      }
    }
  }

  /** The loop over the entries: under `first_success` it stops at the first
      success; the result is that success, if any, and how many calls were
      made. */
  function Collect(entries: seq<Entry>, firstSuccess: bool): (r: (Option<KbResult>, nat))
    ensures r.1 <= |entries|
    ensures r.0.None? ==> r.1 == |entries|
    ensures r.0.None? && firstSuccess ==> forall i :: 0 <= i < |entries| ==> !entries[i].result.KbSuccess?
    ensures r.0.Some? ==> firstSuccess && 0 < r.1 && entries[r.1 - 1].result.KbSuccess? && r.0.value == entries[r.1 - 1].result
    ensures r.0.Some? ==> forall i :: 0 <= i < r.1 - 1 ==> !entries[i].result.KbSuccess?
  {
    if |entries| == 0 then (None, 0)
    else if firstSuccess && entries[0].result.KbSuccess? then (Some(entries[0].result), 1)
    else
      var rest := Collect(entries[1..], firstSuccess);
      assert forall i :: 1 <= i < |entries| ==> entries[i] == entries[1..][i - 1];
      (rest.0, rest.1 + 1)
  }

  /** `queryKnowledgeWithPriority`: with no ids, every configured base in
      ascending `priority || 0` order (sorting the client's list); then the
      first success, or all results ranked, or a failure counting the attempts. */
  function QueryKnowledgeWithPriority(kbs: seq<KbConfig>, query: string, ids: Option<seq<string>>, strategy: string, exec: string -> Exec): (r: Queried)
    ensures r.kbs == if ids.None? || |ids.value| == 0 then StableSort.SortBy(kbs, PriorityOrZero) else kbs
    ensures Seqs.IsPrefix(r.calls, QueryOrder(kbs, ids))
    ensures r.response.FirstHit? ==> strategy == "first_success"
    ensures r.response.AllResults? <==> strategy == "all_results"
    ensures var entries := Entries(r.kbs, query, QueryOrder(kbs, ids), exec);
            var c := Collect(entries, strategy == "first_success");
            r.calls == QueryOrder(kbs, ids)[..c.1] && (r.response.FirstHit? <==> c.0.Some?) &&
            (r.response.FirstHit? ==> r.response.result == c.0.value) &&
            (r.response.NoSuccess? ==> r.response.attempts == |entries|) &&
            (r.response.AllResults? ==> r.response.results == StableSort.SortBy(entries, EntryPriority))
  {
    var useDefault := ids.None? || |ids.value| == 0;
    var configs := if useDefault then StableSort.SortBy(kbs, PriorityOrZero) else kbs;
    var order := QueryOrder(kbs, ids);
    var entries := Entries(configs, query, order, exec);
    var collected := Collect(entries, strategy == "first_success");
    var calls := order[..collected.1];
    match collected.0
    case Some(hit) => Queried(FirstHit(hit), calls, configs)
    case None =>
      if strategy == "all_results" then
        Queried(AllResults(query, strategy, StableSort.SortBy(entries, EntryPriority)), calls, configs)
      else Queried(NoSuccess(query, strategy, |entries|), calls, configs)
  }

  function Ids(kbs: seq<KbConfig>): (r: seq<string>)
    ensures |r| == |kbs| && forall i :: 0 <= i < |kbs| ==> r[i] == kbs[i].id
  {
    if |kbs| == 0 then [] else [kbs[0].id] + Ids(kbs[1..])
  }

  /** The ids the query walks: those given, or every configured id in ascending
      `priority || 0` order. */
  function QueryOrder(kbs: seq<KbConfig>, ids: Option<seq<string>>): seq<string> {
    if ids.None? || |ids.value| == 0 then Ids(StableSort.SortBy(kbs, PriorityOrZero)) else ids.value
  }

  /** Without ids, the bases are called in ascending `priority || 0` order, ties
      in configuration order, and the client's list is left sorted that way. */
  lemma DefaultOrderIsByPriority(kbs: seq<KbConfig>, query: string, strategy: string, exec: string -> Exec)
    ensures var r := QueryKnowledgeWithPriority(kbs, query, None, strategy, exec);
            StableSort.Sorted(r.kbs, PriorityOrZero) && multiset(r.kbs) == multiset(kbs) &&
            (forall k :: StableSort.WithKey(r.kbs, PriorityOrZero, k) == StableSort.WithKey(kbs, PriorityOrZero, k)) &&
            Seqs.IsPrefix(r.calls, Ids(r.kbs))
  {
    var r := QueryKnowledgeWithPriority(kbs, query, None, strategy, exec);
    assert r.kbs == StableSort.SortBy(kbs, PriorityOrZero);
    forall k
      ensures StableSort.WithKey(StableSort.SortBy(kbs, PriorityOrZero), PriorityOrZero, k) == StableSort.WithKey(kbs, PriorityOrZero, k)
    {
      StableSort.SortIsStable(kbs, PriorityOrZero, k);
    }
  }

  /** `first_success` returns the first successful result in call order and
      makes no further calls; when nothing succeeds the failure counts every
      id as an attempt. */
  lemma FirstSuccessSemantics(kbs: seq<KbConfig>, query: string, ids: Option<seq<string>>, exec: string -> Exec)
    ensures var r := QueryKnowledgeWithPriority(kbs, query, ids, "first_success", exec);
            var order := QueryOrder(kbs, ids);
            (r.response.FirstHit? <==> exists i :: 0 <= i < |order| && Hits(r.kbs, query, order[i], exec)) &&
            (r.response.FirstHit? ==>
               0 < |r.calls| && r.calls == order[..|r.calls|] && Hits(r.kbs, query, order[|r.calls| - 1], exec) &&
               (forall i :: 0 <= i < |r.calls| - 1 ==> !Hits(r.kbs, query, order[i], exec)) &&
               r.response.result.KbSuccess?) &&
            (r.response.NoSuccess? ==> r.response.attempts == |order| && r.calls == order)
  {
    var r := QueryKnowledgeWithPriority(kbs, query, ids, "first_success", exec);
    var order := QueryOrder(kbs, ids);
    var entries := Entries(r.kbs, query, order, exec);
    forall i | 0 <= i < |order|
      ensures Hits(r.kbs, query, order[i], exec) <==> entries[i].result.KbSuccess?
    {
      HitsIffSuccess(r.kbs, query, order[i], exec);
    }
    if r.response.FirstHit? {
      assert Hits(r.kbs, query, order[|r.calls| - 1], exec);
    }
  }

  /** `all_results` calls every id and returns every result, ranked by
      priority with ties in call order. */
  lemma AllResultsSemantics(kbs: seq<KbConfig>, query: string, ids: Option<seq<string>>, exec: string -> Exec)
    ensures var r := QueryKnowledgeWithPriority(kbs, query, ids, "all_results", exec);
            var order := QueryOrder(kbs, ids);
            var collected := Entries(r.kbs, query, order, exec);
            r.response.AllResults? && r.calls == order && |r.response.results| == |order| &&
            StableSort.Sorted(r.response.results, EntryPriority) &&
            multiset(r.response.results) == multiset(collected) &&
            forall k :: StableSort.WithKey(r.response.results, EntryPriority, k) == StableSort.WithKey(collected, EntryPriority, k)
  {
    var r := QueryKnowledgeWithPriority(kbs, query, ids, "all_results", exec);
    var order := QueryOrder(kbs, ids);
    var collected := Entries(r.kbs, query, order, exec);
    forall k
      ensures StableSort.WithKey(r.response.results, EntryPriority, k) == StableSort.WithKey(collected, EntryPriority, k)
    {
      StableSort.SortIsStable(collected, EntryPriority, k);
    }
  }
}
