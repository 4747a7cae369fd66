# OpenChatAgent core, modelled in Dafny

This project models the session and streaming-orchestration core of OpenChatAgent, a
customer-support chat platform. An AI agent answers customers first, and a human agent can take
the conversation over. The model is written as immutable datatypes and pure functions over
abstract stores: maps, sets and sequences stand in for Redis keys, in-memory `Map`s and
database rows. Time is an integer parameter, and every network, socket or database call is an
oracle parameter whose answer the caller supplies.

The modules follow the program's files:

| module | models |
|---|---|
| `AiGateway` | `AIService` in `chat-api/src/ai/service.py`: provider retry and fallback, streaming fallback, completion messages, history-to-context truncation |
| `ContextWindow` | `manageContext` in `ai-service/src/utils/context.js` |
| `DashScope` | `DashScopeClient` in `ai-service/src/client/DashScopeClient.js` and `formatKnowledgeResponse` |
| `StableSort` | the stable `Array.prototype.sort` that `queryKnowledgeWithPriority` relies on |
| `WsRegistry` | `Connection` and `ConnectionManager` in `chat-api/src/websocket/manager.py` |
| `SessionStore` | `SessionManager` in `chat-api/src/session/manager.py` (JSON records plus list indices) |
| `RedisSessions` | `SessionManager` in `chat-session/src/managers/SessionManager.js` (three Redis keys per session) |
| `RateLimit` | `RateLimitMiddleware` and `RateLimiter` in `chat-api/src/middleware/rate_limit.py` |
| `Orchestrator` | `_process_ai_response_async` and the conversation resolution of `send_message` in `chat-api/src/services/message.py` |
| `Pagination` | `PaginationParams` and `PaginationResponse` in `chat-api/src/models/base.py` |
| `ConnectionPool` | `ConnectionPool` in `websocket-module/core/ConnectionPool.js` |
| `CoreConnections` | `ConnectionManager` in `chat-core/src/services/ConnectionManager.js` |
| `WsErrors` | `WebSocketErrorHandler` in `chat-core/src/utils/websocketErrorHandler.js` |
| `Reports` | `buildDateFilter`, `buildGroupByClause` and `convertToCSV` in `chat-admin/src/services/reports.js` |
| `MultiIndex`, `Seqs`, `Wrappers` | shared helpers: maps of sets, sequence functions, `Option` and `Result` |

JavaScript and Python truthiness are modelled explicitly. An empty string stands for a missing
id, user or session, because both languages treat `""` as falsy. A JavaScript `null` argument or
a Python `None` argument is an `Option`. Python's `%` is written out (`RateLimit.PyMod`).
`String(n)` is `Seqs.IntText`, and `includes` is `Seqs.IsInfix`.

## Model

| member | source | states |
|---|---|---|
| AiGateway.Resolve | chat-api/src/ai/service.py:44-63 | A missing provider name or `dashscope` resolves to DashScope and `openai` to OpenAI. Exactly the other names are kept as an unknown provider, under that name, which raises. |
| AiGateway.ResolveInvertsName | chat-api/src/ai/service.py:44-63 | Resolving a provider's name gives back that provider, and a non-empty name is recovered from what it resolves to. A missing name resolves to the provider named `dashscope`. |
| AiGateway.Other | chat-api/src/ai/service.py:66-81 | Each known provider has the other as its fallback; an unknown provider has none. |
| AiGateway.Retry | chat-api/src/ai/service.py:46-84 | One provider is called at most `retry_attempts` times. The sleep before attempt k+1 is `retry_delay*(k+1)`. A reply is the answer of the last call, and every call before it failed, so the loop stops at the first answer. An unknown provider is never called and raises. When every call fails, all attempts are used and the loop raises. |
| AiGateway.SendMessage | chat-api/src/ai/service.py:27-86 | This is `send_message` as written. The first `retry_attempts` calls go to the chosen provider and the next call goes to the fallback. The backoff is linear. A reply is what the last call answered. The run stops at the first answer: every call before it failed, and without an answer every call failed. |
| AiGateway.FallBackTo | chat-api/src/ai/service.py:66-81 | After failed retries on one provider, the first `retry_attempts` calls went to it and the next one goes to the other provider. The sleeps keep the linear back-off, a reply is the last call's answer, and every call before the answer failed. |
| AiGateway.FallsBackAfterRetries | chat-api/src/ai/service.py:66-81 | Once the requested provider's retries have all failed, the run is those calls followed by the other provider's whole `send_message` run. |
| AiGateway.RetryFailsUntilAnswer | chat-api/src/ai/service.py:46-84 | Within one provider's retries, every call before the answer failed, and without an answer every call failed. |
| AiGateway.FallbackCallsFailed | chat-api/src/ai/service.py:66-81 | Appending the fallback's run to a run of failed calls keeps every call before the answer a failed one. |
| AiGateway.FallbackNeverTerminates | chat-api/src/ai/service.py:66-81 | When both providers always fail, the mutual fallback is unbounded: at every depth the fuel allows it is still falling back and has made `(depth+1)*retry_attempts` calls. In Python it ends only at the interpreter's recursion limit; that `RecursionError` is swallowed by the parent level's `except Exception`, and the top call then raises `AIServiceException`. |
| AiGateway.RetryUsesAllAttempts | chat-api/src/ai/service.py:46-84 | A provider that always fails is called exactly `retry_attempts` times before the loop raises. |
| AiGateway.PrimaryFailsSecondaryAnswers | chat-api/src/ai/service.py:66-71 | When the primary always fails and the fallback answers, the fallback's answer is returned after `retry_attempts + 1` calls. |
| AiGateway.SendMessageOnceFallback | chat-api/src/ai/service.py:27-86 | In the corrected version, a provider's fallback does not fall back again. It always terminates, with at most `2*retry_attempts` calls and the same retry and backoff shape. |
| AiGateway.OnceFallbackRaisesWhenAllFail | chat-api/src/ai/service.py:66-81 | With the fallback bounded, total failure raises after exactly `2*retry_attempts` calls. |
| AiGateway.StreamMessage | chat-api/src/ai/service.py:88-146 | This is `stream_message` as written. The chosen provider streams first. The fragments it yields stay in the output, even if it fails later. A provider that does not fail completes alone. An unknown provider raises. The hand-over to the other provider is stated by `AiGateway.StreamFallsBackAfterFailure`. |
| AiGateway.StreamFallsBackAfterFailure | chat-api/src/ai/service.py:127-146 | A failing stream hands over to the other provider. The output is the failed stream's fragments followed by the other provider's whole `stream_message` run, which also decides the outcome. At the depth bound the run stops exhausted after the failed stream. |
| AiGateway.StreamFallbackNeverTerminates | chat-api/src/ai/service.py:127-146 | When every stream fails, the streaming fallback is unbounded: it opens one more stream per level, up to any depth the fuel allows, and never completes. In Python it ends only at the interpreter's recursion limit, whose error the parent level swallows before raising. |
| AiGateway.StreamMessageOnceFallback | chat-api/src/ai/service.py:88-146 | In the corrected streaming version, at most two streams are opened. The output is the primary's fragments followed by the fallback's. The stream completes exactly when either provider does not fail. |
| AiGateway.CompletionMessages | chat-api/src/ai/service.py:167-178 | The message list is `[system?] ++ history ++ [user]`, in that order. An empty system prompt or a missing history adds nothing. |
| AiGateway.RoleOf | chat-api/src/ai/service.py:241-246 | `contact` maps to `user` and `agent`/`ai` map to `assistant`. Every other sender has no role. |
| AiGateway.KeptSplit | chat-api/src/ai/service.py:236-246 | Keeping the messages that have a role distributes over concatenation. |
| AiGateway.KeptAround | chat-api/src/ai/service.py:236-252 | Walking back from position i over a message with a role adds exactly that message in front of the suffix kept so far. |
| AiGateway.BuildConversationContext | chat-api/src/ai/service.py:217-255 | The context is a chronological suffix of the messages that have a role. Its total content length is within the budget. It stops exactly at the first message that would overflow the budget, and skipped senders are not charged. |
| ContextWindow.ManageContext | ai-service/src/utils/context.js:12-31 | A non-positive bound gives `[]`. Otherwise the result is the newest `min(n, maxMessages)` entries of `current ++ [user?] ++ [ai?]`, in order. |
| ContextWindow.BelowCapIsConcatenation | ai-service/src/utils/context.js:17-30 | Below the cap the result is the plain concatenation. |
| ContextWindow.NullMessagesNotAppended | ai-service/src/utils/context.js:19-24 | Null messages are not appended; the context is only trimmed. |
| ContextWindow.NewTurnIsKept | ai-service/src/utils/context.js:19-28 | With room for two, the new user message and AI reply are the last two entries. |
| Pagination.Offset | chat-api/src/models/base.py:76-85 | The offset is a non-negative multiple of the page size, and it is page-1 pages. |
| Pagination.FloorDiv | chat-api/src/models/base.py:101 | This is Python's `//`, which rounds toward negative infinity for either sign of the divisor. |
| Pagination.Create | chat-api/src/models/base.py:98-109 | A zero size raises. Otherwise the inputs are echoed, `has_next` holds iff `page < pages`, and `has_prev` holds iff `page > 1`. |
| Pagination.PagesIsCeiling | chat-api/src/models/base.py:101 | For a non-negative total and a positive size, `pages` is the ceiling of `total/size`. |
| Pagination.HasNextMeansMoreRows | chat-api/src/models/base.py:101-108 | On a valid page, there is a next page exactly when rows remain beyond this page. There is a previous page exactly when `page > 1`, which is exactly when the offset skips rows. |
| Pagination.EmptyTotal | chat-api/src/models/base.py:101-108 | A total of 0 gives 0 pages and no next page. |
| DashScope.NewClient | ai-service/src/client/DashScopeClient.js:10-23 | A missing API key throws. Otherwise the client starts with no contexts, the given bases (or none) and the default model `qwen-plus` unless one is given. |
| DashScope.SendMessage | ai-service/src/client/DashScopeClient.js:25-62 | There are at most `1+retries` attempts, each failure but the last followed by one wait. A success stores the turn through `manageContext`. Exhausted retries throw and leave the context as it was. No other session's context changes. |
| DashScope.SendMessageKeepsContextsBounded | ai-service/src/client/DashScopeClient.js:44-49 | Every session context stays within `MAX_CONTEXT_MESSAGES`. |
| DashScope.DefaultRetryIsTwoAttempts | ai-service/src/client/DashScopeClient.js:25-62 | The default `retries = 1` gives at most two attempts; two failures throw, and a second-attempt success is returned. |
| DashScope.GetKnowledgeBaseById | ai-service/src/client/DashScopeClient.js:122-127 | The lookup finds the first configured base with the id. An empty id or an unknown id finds none. |
| DashScope.FirstWithId | ai-service/src/client/DashScopeClient.js:126 | This is `Array.find`: the first index with the id, or none at all. |
| DashScope.FormatKnowledgeResponse | ai-service/src/utils/formatter.js:63-84 | No response gives the fixed failure. A failure passes through unchanged. Data gives a success with the query and id, carrying the text or, when the text is empty, the whole response. |
| DashScope.CallKnowledge | ai-service/src/client/DashScopeClient.js:64-104 | A falsy id throws. An unconfigured id gives the failure naming it. A thrown call throws with the wrapped message. Otherwise the result is the formatted response. |
| DashScope.KnowledgeSuccessIff | ai-service/src/client/DashScopeClient.js:64-104 | A call succeeds iff the id is non-empty and configured and the endpoint returns data. For an empty or unconfigured id, the result does not depend on the endpoint. |
| DashScope.ConfiguredIdSucceeds | ai-service/src/client/DashScopeClient.js:80-104 | Any configured id succeeds with the simulated call's text. |
| DashScope.Rank | ai-service/src/client/DashScopeClient.js:161 | The rank is `priority \|\| 999`: the configured priority of the id's base when it is non-zero, and 999 for a zero or missing priority or an unconfigured id. It is never 0. |
| DashScope.Entries | ai-service/src/client/DashScopeClient.js:150-170 | One entry per id, in id order, carrying the id and its rank. A call that returns gives its result, and a thrown call is recorded as a failure carrying the thrown message. |
| DashScope.EntriesSplit | ai-service/src/client/DashScopeClient.js:150-170 | The entries of two id lists, one after the other, are the entries of their concatenation. |
| DashScope.Collect | ai-service/src/client/DashScopeClient.js:150-170 | Under `first_success`, the walk stops at the first success and returns it, with every earlier entry a failure. Otherwise it walks every entry. |
| DashScope.QueryKnowledgeWithPriority | ai-service/src/client/DashScopeClient.js:136-191 | Without ids, the configured bases are sorted in place by `priority \|\| 0` and called in that order. The calls made are a prefix of the order. `all_results` returns every entry, stably sorted by rank. Under `first_success`, a success is the first one found, and no success reports `attempts = len(ids)`. |
| DashScope.Ids | ai-service/src/client/DashScopeClient.js:145 | The ids are taken from the bases, in order. |
| DashScope.DefaultOrderIsByPriority | ai-service/src/client/DashScopeClient.js:141-146 | Without ids, the bases are sorted ascending by priority. They are a permutation of the configuration, ties keep configuration order, and calls follow that order. |
| DashScope.FirstSuccessSemantics | ai-service/src/client/DashScopeClient.js:150-190 | `first_success` finds a result exactly when some id succeeds. That result is the first success, and calls stop there. Otherwise every id is called and `attempts` is their number. |
| DashScope.AllResultsSemantics | ai-service/src/client/DashScopeClient.js:172-180 | `all_results` calls every id. It returns one entry per id, sorted by rank, a permutation of the collected entries, with equal ranks in call order. |
| StableSort.Insert | ai-service/src/client/DashScopeClient.js:144 | Insertion into a sorted sequence keeps it sorted and adds exactly one element. |
| StableSort.SortBy | ai-service/src/client/DashScopeClient.js:144 | The result is sorted by the key and is a permutation of the input. |
| StableSort.InsertKeepsKeyOrder | ai-service/src/client/DashScopeClient.js:144 | Inserting places the new element after every element with the same key. |
| StableSort.SortIsStable | ai-service/src/client/DashScopeClient.js:177 | Elements with equal keys keep their input order, as the stable `Array.prototype.sort` does. |
| WsRegistry.IsExpired | chat-api/src/websocket/manager.py:55-59 | A connection is expired iff its last activity is older than the timeout, and a missing or zero timeout means `WS_CONNECTION_TIMEOUT`. |
| WsRegistry.ExpiryIsMonotone | chat-api/src/websocket/manager.py:55-59 | An expired connection stays expired as time passes. |
| WsRegistry.Connect | chat-api/src/websocket/manager.py:78-98 | A new connection is unauthenticated, with no session or user, and is filed in no index. |
| WsRegistry.ConnectPreservesInv | chat-api/src/websocket/manager.py:78-98 | Connecting a fresh id keeps the indices exact. |
| WsRegistry.Unfile | chat-api/src/websocket/manager.py:106-121 | Removing from an index under a key the index lacks raises `KeyError`. A present key loses the id. |
| WsRegistry.Disconnect | chat-api/src/websocket/manager.py:100-126 | An unknown id is a no-op. When the removal succeeds, the connection is gone and filed under neither its session nor its user. |
| WsRegistry.DisconnectUnderInv | chat-api/src/websocket/manager.py:100-126 | With exact indices, disconnect never raises. It keeps the indices exact, leaves the id in no set, and is idempotent. |
| WsRegistry.DisconnectKnown | chat-api/src/websocket/manager.py:106-121 | Disconnecting a known id removes it from every session and user set and deletes the sets it empties. |
| WsRegistry.UnknownIsUnfiled | chat-api/src/websocket/manager.py:100-103 | Under the invariant, an id that is not connected is filed nowhere. |
| WsRegistry.AuthenticateAsWritten | chat-api/src/websocket/manager.py:132-160 | This is `authenticate_connection` as written. An unknown id gives false and no change. Otherwise the connection is authenticated and filed under the new user and the given session, and no old filing is removed. |
| WsRegistry.StaleEntryAfterReauthentication | chat-api/src/websocket/manager.py:143-157 | Re-authenticating with another user and session breaks the invariant, and after disconnect the id is still filed under the old ones. |
| WsRegistry.Detach | chat-api/src/websocket/manager.py:143-157 | Detaching clears a connection's session and user and unfiles it from exactly those two keys. |
| WsRegistry.Attach | chat-api/src/websocket/manager.py:143-157 | Attaching stores a connection and files it under exactly its session and user. |
| WsRegistry.Authenticate | chat-api/src/websocket/manager.py:132-160 | In the corrected version, an unknown id gives false and no change. Otherwise the connection is authenticated under the given user and keeps its session when none is given, and no other connection changes. |
| WsRegistry.AuthenticatePreservesInv | chat-api/src/websocket/manager.py:132-160 | Corrected re-authentication keeps the indices exact. |
| WsRegistry.ReauthenticationMoves | chat-api/src/websocket/manager.py:143-157 | After re-authentication, the id is filed under exactly the new session and the new user. |
| WsRegistry.SendToConnection | chat-api/src/websocket/manager.py:162-176 | A send succeeds iff the id is known and its socket accepts the send. A success refreshes the last activity, and a failure changes nothing. |
| WsRegistry.SendAll | chat-api/src/websocket/manager.py:178-231 | The count is the number of targets whose send succeeded. Exactly those connections are refreshed. |
| WsRegistry.Excluding | chat-api/src/websocket/manager.py:188-190 | The excluded id is never targeted, and nothing else is dropped. |
| WsRegistry.SendToSession | chat-api/src/websocket/manager.py:178-194 | The count is the number of successful sends to the session's connections other than the excluded one. It is at most the session's set size, and the excluded connection is untouched. |
| WsRegistry.SendToUser | chat-api/src/websocket/manager.py:196-212 | The count is the number of successful sends to the user's connections other than the excluded one. It is at most the user's set size, and the excluded connection is untouched. |
| WsRegistry.DeliveredBounded | chat-api/src/websocket/manager.py:178-231 | No send reaches more connections than were targeted. |
| WsRegistry.BroadcastTargets | chat-api/src/websocket/manager.py:221-226 | With `authenticated_only`, exactly the authenticated connections are targeted; otherwise all of them. |
| WsRegistry.Broadcast | chat-api/src/websocket/manager.py:214-231 | The count is the number of successful sends to the targets. Unauthenticated connections are skipped when asked. |
| WsRegistry.InvIsCovered | chat-api/src/websocket/manager.py:100-126 | A consistent registry is covered. |
| WsRegistry.ConnectKeepsCovered | chat-api/src/websocket/manager.py:78-98 | A new connection has no keys, so connecting keeps the registry covered. |
| WsRegistry.UnfileKeepsReach | chat-api/src/websocket/manager.py:106-118 | On an index that reaches every live connection, `disconnect`'s index step finds the key it deletes from, and the index still reaches every remaining connection. |
| WsRegistry.DisconnectKeepsCovered | chat-api/src/websocket/manager.py:100-126 | On a covered registry, stale entries included, `disconnect` never raises and keeps the registry covered. |
| WsRegistry.AuthenticateAsWrittenKeepsCovered | chat-api/src/websocket/manager.py:132-160 | `authenticate_connection` as written can leave stale index entries behind on re-authentication, but it always keeps the registry covered: every connection with a session or user is still filed under it. |
| WsRegistry.SameKeysKeepCovered | chat-api/src/websocket/manager.py:249-262 | Changing connection records without changing their keys keeps the registry covered. |
| WsRegistry.DisconnectAll | chat-api/src/websocket/manager.py:100-126 | On a covered registry, stale entries included, no `disconnect` raises. Disconnecting a set of ids removes exactly them, keeps every other connection as it was, and keeps the registry covered. A consistent registry stays consistent. |
| WsRegistry.HeartbeatSweep | chat-api/src/websocket/manager.py:249-271 | On a covered registry, stale entries included, the sweep disconnects exactly the connections whose heartbeat send failed, and the rest are refreshed. The registry stays covered, and a consistent one stays consistent. |
| WsRegistry.CleanupSweep | chat-api/src/websocket/manager.py:273-290 | On a covered registry, stale entries included, the sweep disconnects exactly the connections expired under the default timeout and leaves the rest unchanged. The registry stays covered, and a consistent one stays consistent. |
| MultiIndex.Add | websocket-module/core/ConnectionPool.js:247-255 | Adding files the id under the key, creating the set when needed, and changes no other key. |
| MultiIndex.Remove | websocket-module/core/ConnectionPool.js:257-268 | Removing unfiles the id and deletes the key exactly when its set becomes empty. |
| MultiIndex.RemoveUndoesAdd | websocket-module/core/ConnectionPool.js:247-268 | Removing an id just added gives back the index. |
| SessionStore.PushAllReverses | chat-api/src/session/manager.py:413-417 | Rebuilding a list with repeated `LPUSH` puts the items in front in reverse order. |
| SessionStore.RemoveFromListAsWritten | chat-api/src/session/manager.py:408-417 | This is the index removal as written. It drops the first occurrence and reverses the rest. |
| SessionStore.RemovalReversesOrder | chat-api/src/session/manager.py:408-417 | Concrete case: removing `s3` from `[s3, s2, s1]` leaves `[s1, s2]`. |
| SessionStore.RemoveFromList | chat-api/src/session/manager.py:408-430 | The corrected removal drops the first occurrence and keeps the order of the rest. |
| SessionStore.RemoveFromListMultiset | chat-api/src/session/manager.py:408-430 | Removal takes exactly one copy of the id out. |
| SessionStore.WithoutInUserIndex | chat-api/src/session/manager.py:408-417 | Only the one user's list changes. |
| SessionStore.WithoutInGlobalIndex | chat-api/src/session/manager.py:423-430 | Only the global list changes. |
| SessionStore.GetSessionAsWritten | chat-api/src/session/manager.py:102-130 | This is `get_session` as written. It never changes the store. A session is returned iff it exists and has not expired, and it is the stored record. |
| SessionStore.CloseSessionAsWritten | chat-api/src/session/manager.py:173-207 | This is `close_session` as written. It closes only a session its own `get_session` returns, which is a live one. The session is then CLOSED and removed from both indices by the reversing removal. Otherwise the store is unchanged. |
| SessionStore.ExpiredSessionNeverClosed | chat-api/src/session/manager.py:121-124 | At every recursion depth, an expired session is never closed. `get_session` gives None and `close_session` gives False, and the store is unchanged. |
| SessionStore.Unindex | chat-api/src/session/manager.py:190-192 | The session id is dropped from its user's list and from the global list only. |
| SessionStore.CloseSession | chat-api/src/session/manager.py:173-207 | Corrected (both corrections: expired sessions are closed, and removal keeps order; see Findings). An absent session gives false and no change. Otherwise the session is CLOSED with `updated_at` bumped and removed from both indices, and other users' lists are unchanged. |
| SessionStore.GetSession | chat-api/src/session/manager.py:102-130 | In the corrected version, a session is returned iff it exists and has not expired. An expired session gives None and is closed directly. |
| SessionStore.ClosedSessionStillReturned | chat-api/src/session/manager.py:119-126 | A CLOSED but unexpired session is still returned, because status is not checked. |
| SessionStore.GetSessionClosesOnly | chat-api/src/session/manager.py:102-130 | A lookup at most closes the expired session it looked up; no other record changes. |
| SessionStore.LiveSessions | chat-api/src/session/manager.py:250-256 | Only unexpired sessions are collected, each being the stored record of an id on the list. |
| SessionStore.LiveSessionsStable | chat-api/src/session/manager.py:250-256 | Closing expired sessions does not change which live sessions are collected. |
| SessionStore.CollectSessions | chat-api/src/session/manager.py:250-256 | Corrected (as written no record changes; see Findings). Collecting returns the live sessions of the list and at most closes expired ones. |
| SessionStore.GetUserSessions | chat-api/src/session/manager.py:239-263 | Corrected (as written no record changes). The result is the live sessions of the user's list, in list order, and the corrected lookup at most closes expired ones. |
| SessionStore.CollectUnexpiredKeepsStore | chat-api/src/session/manager.py:250-256 | When no listed session has expired, the corrected walk leaves the store as it was. |
| SessionStore.CollectSessionsAsWritten | chat-api/src/session/manager.py:250-256 | As written, collecting returns the same live sessions as the corrected walk, and the store is unchanged. |
| SessionStore.GetUserSessionsAsWritten | chat-api/src/session/manager.py:239-263 | This is `get_user_sessions` as written. It returns the same sessions as the corrected listing and leaves the store as it was. |
| SessionStore.OldestIndex | chat-api/src/session/manager.py:74 | This picks the first session with the minimal `created_at`, as `min` does. |
| SessionStore.EvictIfFull | chat-api/src/session/manager.py:72-76 | Corrected (as written the indices are reversed; see Findings). At `MAX_SESSIONS_PER_USER` live sessions or more, the oldest is CLOSED, every other record is kept, and its id leaves both indices, which keep the order of the other ids. Below the limit nothing changes. |
| SessionStore.EvictIfFullAsWritten | chat-api/src/session/manager.py:72-76 | This is the eviction as written. At the limit, a live oldest session is CLOSED, every other record is kept, and both indices are rebuilt by the reversing removal. An expired oldest session is not closed and nothing changes. Below the limit nothing changes. |
| SessionStore.Insert | chat-api/src/session/manager.py:78-82 | Saving stores the record and pushes its id at the head of the user list and of the global list. |
| SessionStore.CreateSession | chat-api/src/session/manager.py:44-100 | Corrected (listing and eviction are the corrected ones; see Findings). A new session is ACTIVE, expires after `max_session_duration`, takes the given metadata or an empty one, and is at the head of both indices. The stored ids are the old ones plus the new one. |
| SessionStore.CreateSessionAsWritten | chat-api/src/session/manager.py:44-100 | This is `create_session` as written. The new record is the corrected one. Below the limit only the new session is added, so expired sessions stay ACTIVE and indexed. At the limit the oldest live session is CLOSED, and the ids left in both indices come out reversed behind the new id. |
| SessionStore.CreateReversesIndexAsWritten | chat-api/src/session/manager.py:72-82 | For a full user with nothing expired, both creations leave the same records, but as written the user's index behind the new id is the reverse of the corrected one. |
| SessionStore.EvictIfFullFacts | chat-api/src/session/manager.py:72-76 | Eviction closes the oldest live session and leaves every other live session as it was. |
| SessionStore.CreateEvictsOldest | chat-api/src/session/manager.py:72-82 | Creating a session for a full user closes exactly the oldest of their live sessions. |
| SessionStore.CollectSessionsKeepsLive | chat-api/src/session/manager.py:250-256 | Live sessions survive a collection unchanged. |
| SessionStore.UpdateSession | chat-api/src/session/manager.py:132-171 | Corrected (as written the not-found path changes nothing). An absent or expired session raises not-found, and an expired one is closed by the corrected close. Otherwise only the non-None fields are copied, both timestamps are bumped, and the identity fields are kept. |
| SessionStore.UpdateIsIdempotent | chat-api/src/session/manager.py:148-159 | Applying the same update twice at the same time equals applying it once. |
| SessionStore.UpdateActivity | chat-api/src/session/manager.py:265-287 | Corrected (as written `False` changes nothing). This succeeds iff the session is live, and then it only refreshes `last_activity_at`. Otherwise an expired session is closed by the corrected close. |
| SessionStore.UpdateSessionAsWritten | chat-api/src/session/manager.py:132-171 | This is `update_session` as written. A missing or expired session raises not-found and the store is unchanged. On a live session it equals the corrected update. |
| SessionStore.UpdateActivityAsWritten | chat-api/src/session/manager.py:265-287 | This is `update_activity` as written. It is True iff the session is live, and then it equals the corrected refresh. Otherwise the store is unchanged. |
| SessionStore.ExpiredStaysActiveAsWritten | chat-api/src/session/manager.py:102-130 | On an expired session, the corrected update, refresh and listing close it. As written all three leave the store, and so its ACTIVE record and index entries, unchanged. |
| SessionStore.CollectExpiredCloses | chat-api/src/session/manager.py:250-256 | The corrected walk closes every expired session on the list. |
| SessionStore.SwitchAgent | chat-api/src/session/manager.py:289-336 | Corrected (as written a live switch raises; see Findings). An absent or expired session raises not-found. Otherwise the agent is set and exactly one `{from, to, reason, timestamp}` record is appended to the switch log. |
| SessionStore.TwoSwitchesLogTwo | chat-api/src/session/manager.py:317-325 | Corrected: two switches append two records, in order. |
| SessionStore.SwitchAgentAsWritten | chat-api/src/session/manager.py:289-336 | This is `switch_agent` as written. An absent or expired session raises not-found. A live session raises `SessionException`, because the stored agent type is a plain string with no `.value`. No call succeeds, and the store never changes. |
| SessionStore.LiveSwitchFailsAsWritten | chat-api/src/session/manager.py:317-336 | On a live session the corrected switch succeeds and logs one more record, while the switch as written raises and leaves the store as it was. |
| SessionStore.DeleteSession | chat-api/src/session/manager.py:209-237 | Corrected (see Findings): a live session is removed from the store and both indices, which keep the order of the other ids; otherwise the result is False. |
| SessionStore.DeletedIsGone | chat-api/src/session/manager.py:209-237 | Corrected: after a delete, the corrected `get_session` finds nothing. |
| SessionStore.DeleteSessionAsWritten | chat-api/src/session/manager.py:209-237 | This is `delete_session` as written. It returns True iff the session is live, and then the record is gone and both indices are rebuilt by the reversing removal. Otherwise nothing changes. |
| SessionStore.DeleteReversesIndexAsWritten | chat-api/src/session/manager.py:209-237 | The delete as written removes the same record as the corrected one, but leaves the global index reversed. |
| SessionStore.SweepOneFacts | chat-api/src/session/manager.py:352-374 | Corrected (see Findings): one sweep step counts the id iff it is absent, expired or idle, and closes such a session. |
| SessionStore.StaleStable | chat-api/src/session/manager.py:352-374 | Closing sessions does not change which ids are stale. |
| SessionStore.SweepStep | chat-api/src/session/manager.py:352-374 | Corrected: each sweep step extends the swept prefix of the snapshot. |
| SessionStore.CleanupExpiredSessions | chat-api/src/session/manager.py:346-383 | Corrected (as written expired sessions stay ACTIVE; see Findings). The count is the number of snapshot ids that are absent, expired or idle. Every such session that is stored is CLOSED, and every session that is not stale is unchanged. |
| SessionStore.SweepOneAsWrittenFacts | chat-api/src/session/manager.py:352-374 | As written, one sweep step counts the same ids as the corrected step but closes only an idle session that has not expired. An expired session keeps its record unchanged. |
| SessionStore.ClosedByCleanupStable | chat-api/src/session/manager.py:352-374 | Closing sessions does not change which sessions the sweep as written closes. |
| SessionStore.SweepStepAsWritten | chat-api/src/session/manager.py:352-374 | Each step of the sweep as written extends its swept prefix of the snapshot. |
| SessionStore.CleanupExpiredSessionsAsWritten | chat-api/src/session/manager.py:346-383 | This is `cleanup_expired_sessions` as written. The count is the number of stale snapshot ids. The idle unexpired sessions of the snapshot are CLOSED, and every other record, including every expired one, is unchanged. |
| RedisSessions.KeysAreDistinct | chat-session/src/managers/SessionManager.js:27-37 | The three keys of a session differ, and each key determines its session. |
| RedisSessions.MetaPatternIsMetaKey | chat-session/src/managers/SessionManager.js:459-460 | The pattern `session:*:meta` matches exactly the metadata keys. |
| RedisSessions.UpToColon | chat-session/src/managers/SessionManager.js:473 | This is the piece of `split(":")` before the first colon. |
| RedisSessions.SecondFieldOfMetaKey | chat-session/src/managers/SessionManager.js:473 | `key.split(":")[1]` of a metadata key is its session id when the id has no colon. |
| RedisSessions.SecondFieldOfColonId | chat-session/src/managers/SessionManager.js:473 | For an id containing a colon, only the part before the colon is recovered. |
| RedisSessions.KeyKinds | chat-session/src/managers/SessionManager.js:27-37 | Each key builder yields a key of exactly one kind. |
| RedisSessions.Tick | chat-session/src/managers/SessionManager.js:70-72 | When time passes, exactly the keys whose TTL has run out disappear. |
| RedisSessions.HSet | chat-session/src/managers/SessionManager.js:65 | `HSET` writes the given fields, keeps the others, adds no other field, and leaves every other key alone. |
| RedisSessions.Set | chat-session/src/managers/SessionManager.js:66 | `SET` stores the string and clears the key's TTL. |
| RedisSessions.Expire | chat-session/src/managers/SessionManager.js:70-72 | `EXPIRE` sets the TTL of an existing key and ignores a missing one. |
| RedisSessions.Del | chat-session/src/managers/SessionManager.js:380-382 | `DEL` removes the key and reports 1 iff it existed. |
| RedisSessions.PushBounded | chat-session/src/managers/SessionManager.js:241-247 | This appends the item and keeps the newest `MAX_MESSAGE_HISTORY` entries. A new list has no TTL. |
| RedisSessions.CreateSession | chat-session/src/managers/SessionManager.js:39-97 | A missing userId throws. Otherwise the metadata has `currentAgent = "ai"` and both timestamps set to now. The metadata hash (exactly these fields for a fresh id) and the agent key `"ai"` exist with the default TTL. No key outside the session's own three changes, and the history list exists afterwards exactly when it did before. |
| RedisSessions.IsSessionActive | chat-session/src/managers/SessionManager.js:166-181 | A missing id throws. Otherwise a session is active iff its metadata key exists. |
| RedisSessions.GetSessionAgent | chat-session/src/managers/SessionManager.js:99-114 | A missing id throws. Otherwise the result is the stored agent string, or null. |
| RedisSessions.SwitchAgentAsWritten | chat-session/src/managers/SessionManager.js:116-141 | This is `switchAgent` as written. A missing argument throws. Otherwise the agent key holds the new agent and has lost its TTL to `SET`. The metadata gets `currentAgent`, `agentSwitchedAt` and `lastActiveAt` and keeps its other fields. Every other key is unchanged. |
| RedisSessions.StampSwitch | chat-session/src/managers/SessionManager.js:127-129 | The metadata gets `currentAgent`, `agentSwitchedAt` and `lastActiveAt`. Every other metadata field keeps its value, and no field is added. Only the metadata key changes, and no TTL changes. |
| RedisSessions.SwitchAgent | chat-session/src/managers/SessionManager.js:116-141 | The corrected switch keeps every TTL. |
| RedisSessions.SwitchThenGetAgent | chat-session/src/managers/SessionManager.js:99-141 | After a switch, the agent read back is the new agent, in both keys. |
| RedisSessions.StaleAgentOutlivesSession | chat-session/src/managers/SessionManager.js:116-131 | As written, the agent key survives the session's expiry. Corrected, it expires with the session. |
| RedisSessions.ExtendSession | chat-session/src/managers/SessionManager.js:183-213 | A missing id throws. Otherwise `lastActiveAt` of the metadata hash is stamped, every other metadata field keeps its value, no field is added, and no TTL changes. |
| RedisSessions.AddMessage | chat-session/src/managers/SessionManager.js:215-264 | A missing id, a message missing any of `id/from/text/timestamp`, or an inactive session throws. Otherwise the message id is returned. |
| RedisSessions.AddMessageEffect | chat-session/src/managers/SessionManager.js:236-251 | The history gains the message, trimmed to the newest entries. `lastActiveAt` is stamped, every other metadata field keeps its value, and no other key or TTL changes. |
| RedisSessions.HistoryKeepsNewest | chat-session/src/managers/SessionManager.js:241-251 | The history length is at most `MAX_MESSAGE_HISTORY`. It ends with the new message, and the older part is a suffix of the previous history. |
| RedisSessions.FirstMessageHistoryHasNoExpiry | chat-session/src/managers/SessionManager.js:236-241 | A history created by the first message has no TTL. The `EXPIRE` at creation (line 72) targeted a key that did not exist yet. |
| RedisSessions.Parse | chat-session/src/managers/SessionManager.js:286-295 | A stored JSON entry parses to its message. Anything else becomes an error object carrying the raw text. |
| RedisSessions.GetHistory | chat-session/src/managers/SessionManager.js:266-305 | A missing id throws. Without a limit, 20 entries are read. A limit of 0 or less gives `[]`. Otherwise the result is the last `limit` entries, in order, each parsed at its own position. |
| RedisSessions.AddThenGetHistory | chat-session/src/managers/SessionManager.js:215-305 | After `addMessage`, `getHistory` ends with that message and returns at most `MAX_MESSAGE_HISTORY` entries. |
| RedisSessions.SetSessionTtl | chat-session/src/managers/SessionManager.js:307-346 | A missing id, a TTL that is not a number or is 0 or less, or an inactive session throws. Otherwise each existing key of the session gets the new TTL, and nothing else changes. |
| RedisSessions.SessionLivesForTtl | chat-session/src/managers/SessionManager.js:329-334 | After `setSessionTTL`, the session lives until just before the TTL runs out and is then gone entirely. |
| RedisSessions.DeleteSession | chat-session/src/managers/SessionManager.js:369-401 | A missing id throws. Otherwise the session's three keys are gone and nothing else changes. |
| RedisSessions.DeleteCountsExistingKeys | chat-session/src/managers/SessionManager.js:385-393 | The reported count is the number of the session's keys that existed. |
| RedisSessions.CleanupExpiredSessions | chat-session/src/managers/SessionManager.js:457-496 | The count is at most the number of listed keys. The cleanup only deletes keys and keeps the store well-typed. |
| RedisSessions.RemoveKeys | chat-session/src/managers/SessionManager.js:473-475 | Exactly the given keys are removed. |
| RedisSessions.CleanupAtListingTimeCleansNothing | chat-session/src/managers/SessionManager.js:459-476 | Checked at the listing time, no listed key reads TTL -2, so nothing is cleaned. |
| RedisSessions.CleanupDeletesExpiredSession | chat-session/src/managers/SessionManager.js:470-475 | A session whose metadata has expired by the time of the cleanup is deleted and counted. |
| RedisSessions.ListedKeyNamesItsSession | chat-session/src/managers/SessionManager.js:473 | A listed key with a colon-free id names its own session. |
| RedisSessions.CleanupKeepsLiveSession | chat-session/src/managers/SessionManager.js:468-476 | A session whose keys are all still live keeps every key. |
| RateLimit.FindExact | chat-api/src/middleware/rate_limit.py:110-111 | This finds the entry whose pattern equals the path, or none. |
| RateLimit.FindPrefix | chat-api/src/middleware/rate_limit.py:114-116 | This finds the first entry, in dictionary order, whose pattern starts the path, or none. |
| RateLimit.GetLimitConfig | chat-api/src/middleware/rate_limit.py:107-119 | An exact match wins, then the first prefix match in dictionary order, then the default. |
| RateLimit.ExactStepIsRedundant | chat-api/src/middleware/rate_limit.py:107-119 | When no pattern starts another, the lookup is just the first prefix match. |
| RateLimit.ConfiguredTableIsPrefixFree | chat-api/src/middleware/rate_limit.py:29-42 | The configured patterns are distinct and none starts another. |
| RateLimit.AdminPathsUseAdminLimit | chat-api/src/middleware/rate_limit.py:38-41 | Every path under `/api/v1/admin` gets the admin limit over 60 s. |
| RateLimit.Prune | chat-api/src/middleware/rate_limit.py:146 | Pruning removes exactly the members scored from 0 to `now - window`, both inclusive. |
| RateLimit.PruneLater | chat-api/src/middleware/rate_limit.py:146 | Pruning at a later time subsumes pruning earlier. |
| RateLimit.WindowStep | chat-api/src/middleware/rate_limit.py:146-167 | The count is taken after pruning. A request is admitted iff `count < limit`. A rejected request adds no member, and an admitted one adds its member at `now`. |
| RateLimit.Repeat | chat-api/src/middleware/rate_limit.py:166 | This is `n` requests carrying the same member. |
| RateLimit.SameSecondBurstAllAdmitted | chat-api/src/middleware/rate_limit.py:134-166 | As written, requests in the same second share one member, so a burst of any size is admitted once two slots are free. |
| RateLimit.RepeatedMemberAdmitted | chat-api/src/middleware/rate_limit.py:166 | A burst that repeats one member is admitted in full. |
| RateLimit.StepWithRoom | chat-api/src/middleware/rate_limit.py:146-167 | With room left, a request is admitted and its member holds the slot at `now`. |
| RateLimit.HeldMemberAdmitted | chat-api/src/middleware/rate_limit.py:166 | A member that already holds a slot never uses a second one. |
| RateLimit.DistinctMembersBounded | chat-api/src/middleware/rate_limit.py:146-167 | With one member per request, at most the free slots are admitted. |
| RateLimit.ThreeRequestsLimitTwo | chat-api/src/middleware/rate_limit.py:134-166 | Concrete case: with limit 2, three same-second requests are all admitted as written, and at most two with distinct members. |
| RateLimit.PyMod | chat-api/src/middleware/rate_limit.py:136 | This is Python's `%`, whose result takes the divisor's sign. |
| RateLimit.CheckRateLimit | chat-api/src/middleware/rate_limit.py:121-174 | Corrected (as written every request passes; see Findings). With no working store or a zero window, the request passes unchanged. A failure reports the limit, the window, a count of at least the limit, and a reset time in `(now, now+window]`. Otherwise the window step decides. |
| RateLimit.Dispatch | chat-api/src/middleware/rate_limit.py:50-63 | Corrected: when disabled, every request passes. Otherwise the configured limit for the path is checked. |
| RateLimit.IsAllowed | chat-api/src/middleware/rate_limit.py:211-279 | Corrected (as written every call with a client fails open; see Findings). With no client the result is `0`. A store error fails open. A denial reports a count of at least the limit. A grant reports a count within the limit and `remaining = limit - current`, which is never negative. The window step decides. |
| RateLimit.CheckRateLimitAsWritten | chat-api/src/middleware/rate_limit.py:121-174 | This is `_check_rate_limit` as written. Every request passes and nothing is recorded. A zero window, the `None` manager, a missing client and a failing backend end in a caught exception or an early return. On a live backend the awaited pipeline is compared with an int, which raises `TypeError`. |
| RateLimit.DispatchAsWritten | chat-api/src/middleware/rate_limit.py:50-63 | As written, the middleware never rejects a request and records nothing, whatever the configuration, path or window. |
| RateLimit.FullWindowIgnoredAsWritten | chat-api/src/middleware/rate_limit.py:143-174 | On a window that already holds the limit, the corrected check rejects with the limit, window, count and reset time. The check as written lets the request pass and records nothing. |
| RateLimit.SecondAdminRequestInWindow | chat-api/src/middleware/rate_limit.py:38-63 | With an admin limit of 1, the corrected middleware admits the first admin request and rejects a second one in the same window. As written, the second passes. |
| RateLimit.IsAllowedAsWritten | chat-api/src/middleware/rate_limit.py:211-279 | This is `is_allowed` as written. It gives `0` exactly when the manager has no client. Every other call fails open, granting with an error, and nothing is recorded. |
| RateLimit.IsAllowedFailsOpenAsWritten | chat-api/src/middleware/rate_limit.py:229-279 | On a full window the corrected limiter denies with the count and the reset time, while the limiter as written grants. |
| Orchestrator.AgentValue | chat-api/src/services/message.py:348-354 | An enum member gives its value, a string gives itself, and a missing agent type defaults to `"ai"`. |
| Orchestrator.StreamEvents | chat-api/src/services/message.py:398-411 | There is one `ai_stream` event per fragment, carrying the fragment, the concatenation so far and `is_complete = false`. |
| Orchestrator.Generate | chat-api/src/services/message.py:379-451 | The order is typing on, the stream events, typing off, a final `ai_stream` event with `is_complete = true` and empty content, then the new message. A save happens only when the stream and the database both succeed. |
| Orchestrator.ProcessAiResponse | chat-api/src/services/message.py:320-466 | A missing session or a non-AI agent produces nothing. Otherwise the events are as in `Generate`, and the reply is saved iff nothing raised. |
| Orchestrator.ErrorEventIsLastAndOnly | chat-api/src/services/message.py:453-466 | A failing task emits exactly one error event, as its last event, and saves nothing. A task that succeeds emits none. |
| Orchestrator.FullContentGrows | chat-api/src/services/message.py:398-407 | Each `full_content` is a prefix of every later one, and the last one is the final text. |
| Orchestrator.EmptyStreamApologises | chat-api/src/services/message.py:416-418 | Zero fragments or only empty fragments give the fixed apology. |
| Orchestrator.ResolveConversation | chat-api/src/services/message.py:142-158 | The message's own conversation is used first, then the session's, then a newly created one. A falsy outcome raises the validation error. |
| ConnectionPool.FileUnder | websocket-module/core/ConnectionPool.js:247-255 | An id is filed under a non-empty key only; an empty key files nothing. |
| ConnectionPool.UnfileFrom | websocket-module/core/ConnectionPool.js:257-268 | An id is unfiled from a non-empty key, and a set it empties is deleted. |
| ConnectionPool.AddConnection | websocket-module/core/ConnectionPool.js:52-106 | A full pool rejects the connection with close code 1013 and changes nothing. Otherwise the connection is stored with fresh counters and indexed under exactly its user and session when present. |
| ConnectionPool.RemoveConnection | websocket-module/core/ConnectionPool.js:147-179 | An unknown id gives false. Otherwise the id is removed from the map and from exactly its user and session sets. |
| ConnectionPool.AddPreservesInv | websocket-module/core/ConnectionPool.js:52-106 | Adding a fresh id keeps the indices exact. |
| ConnectionPool.RemovePreservesInv | websocket-module/core/ConnectionPool.js:147-179 | Removing keeps the indices exact and deletes emptied sets. |
| ConnectionPool.RemoveUndoesAdd | websocket-module/core/ConnectionPool.js:52-179 | Removing a connection just admitted gives back the pool. |
| ConnectionPool.FiledRoundTrip | websocket-module/core/ConnectionPool.js:257-288 | Unfiling and unstoring a connection just filed (as at lines 84-91) restores every map. |
| ConnectionPool.RemoveShape | websocket-module/core/ConnectionPool.js:147-164 | Removal drops the id from the map and unfiles it from its own user and session. |
| ConnectionPool.UnfileUndoesFile | websocket-module/core/ConnectionPool.js:247-288 | Unfiling an id just filed gives back the index. |
| ConnectionPool.RemoveIsIdempotent | websocket-module/core/ConnectionPool.js:147-150 | A second removal gives false and changes nothing. |
| ConnectionPool.UserConnections | websocket-module/core/ConnectionPool.js:191-194 | This yields only live connections. |
| ConnectionPool.SessionConnections | websocket-module/core/ConnectionPool.js:199-202 | This yields only live connections. |
| ConnectionPool.IndexesAreExact | websocket-module/core/ConnectionPool.js:191-202 | Under the invariant, a user's or session's connections are exactly the live connections carrying that key. |
| ConnectionPool.SendToConnection | websocket-module/core/ConnectionPool.js:207-223 | A send succeeds iff the connection exists, is OPEN and its send does not throw. A success refreshes `lastActivity`, and a failure changes nothing. |
| ConnectionPool.Addressed | websocket-module/core/ConnectionPool.js:232-234 | Without a filter every connection is addressed; otherwise exactly those the filter accepts. |
| ConnectionPool.ReachedStep | websocket-module/core/ConnectionPool.js:231-239 | Each connection visited adds one to the count iff its send goes through. |
| ConnectionPool.SendStep | websocket-module/core/ConnectionPool.js:231-239 | Each send in the loop refreshes exactly the connection it reached. |
| ConnectionPool.SendAll | websocket-module/core/ConnectionPool.js:231-239 | The count is the number of targets whose send went through, and exactly those are refreshed. |
| ConnectionPool.Broadcast | websocket-module/core/ConnectionPool.js:228-242 | The count is the number of connections that pass the filter and accept the send. It is at most the number addressed, and only reached connections are refreshed. |
| ConnectionPool.OnMessage | websocket-module/core/ConnectionPool.js:113-118 | An incoming message refreshes `lastActivity` and adds one to `messageCount` of that connection only. |
| ConnectionPool.RemoveAll | websocket-module/core/ConnectionPool.js:323-325 | Removing a set of ids removes exactly them and keeps the indices exact. |
| ConnectionPool.Cleanup | websocket-module/core/ConnectionPool.js:302-330 | The survivors are exactly the connections that are neither CLOSED nor idle past the timeout, unchanged. The ones closed for timeout are exactly the non-CLOSED idle ones. |
| CoreConnections.AddConnection | chat-core/src/services/ConnectionManager.js:8-19 | A missing id or socket gives false. Otherwise the connection is stored with no details, replacing any previous one, and the count grows only for a new id. |
| CoreConnections.SetConnectionDetails | chat-core/src/services/ConnectionManager.js:21-37 | An unknown id gives false. Otherwise a missing session or user keeps the stored one, and nothing else changes. |
| CoreConnections.RemoveConnection | chat-core/src/services/ConnectionManager.js:46-58 | The result is true iff the id was present, and the count then drops by one. |
| CoreConnections.GetConnection | chat-core/src/services/ConnectionManager.js:60-66 | This returns the stored socket, or none for a missing or unknown id. |
| CoreConnections.AddThenGet | chat-core/src/services/ConnectionManager.js:8-66 | A socket just added is what a lookup finds, until it is removed. |
| CoreConnections.RemoveUndoesAdd | chat-core/src/services/ConnectionManager.js:8-58 | Removing a connection just added under a fresh id gives back the table. |
| CoreConnections.SendMessageToConnection | chat-core/src/services/ConnectionManager.js:83-103 | The result is false when the connection is unknown, not OPEN, or its send throws. |
| CoreConnections.BroadcastMessage | chat-core/src/services/ConnectionManager.js:105-124 | The count is the number of connections other than the excepted one that are OPEN and whose send does not throw. That equals the number of targeted sends that answer true. |
| CoreConnections.ReachedStep | chat-core/src/services/ConnectionManager.js:108-121 | Each connection visited adds one to the count iff it is not excepted and its send goes through. |
| CoreConnections.ReachedIsWhereSendsSucceed | chat-core/src/services/ConnectionManager.js:83-124 | The broadcast reaches exactly the ids for which a targeted send would answer true. |
| CoreConnections.ReachedBounded | chat-core/src/services/ConnectionManager.js:105-124 | The count never exceeds the connections that are not excepted. |
| WsErrors.NamedCodesAreARange | chat-core/src/utils/websocketErrorHandler.js:11-28 | The named close codes are exactly 1000 to 1015. |
| WsErrors.ClosePolicyAgreesWithTable | chat-core/src/utils/websocketErrorHandler.js:257-269 | Every close code that stops reconnection is named in the close-code table (lines 11-28). Among them, only 1000 and 1001 are informational, and only 1011 is also abnormal. Every abnormal code is named with error severity. |
| WsErrors.RecoveryDelay | chat-core/src/utils/websocketErrorHandler.js:281-292 | The delay is 1000 ms iff the code is 1006, 5000 iff 1012, 10000 iff 1013, and otherwise 2000. |
| WsErrors.AnalyzeCloseCode | chat-core/src/utils/websocketErrorHandler.js:179-196 | A named code carries its name, description and severity. An unknown code is `UNKNOWN` at warn severity, and its description names the code. Abnormality follows the abnormal set. |
| WsErrors.HandleClose | chat-core/src/utils/websocketErrorHandler.js:146-155 | The result combines the analysis with the reconnect policy and the delay. |
| WsErrors.UnknownCloseReconnects | chat-core/src/utils/websocketErrorHandler.js:257-292 | An unknown code reconnects after 2000 ms, and `handleClose` (lines 146-196) reports it as a warn-level, non-abnormal close. |
| WsErrors.RecoveryStrategy | chat-core/src/utils/websocketErrorHandler.js:274-276 | The type's own strategy is used, else the connection strategy. |
| WsErrors.UpdateErrorStats | chat-core/src/utils/websocketErrorHandler.js:317-325 | Exactly the error's type is counted once more and stamped; every other type is unchanged. |
| WsErrors.HandleErrorAsWritten | chat-core/src/utils/websocketErrorHandler.js:130-141 | As written, the stats are updated before the decision, so the strategy sees a count that already includes this error. |
| WsErrors.HandleError | chat-core/src/utils/websocketErrorHandler.js:130-141 | In the corrected version, the strategy decides on the number of earlier errors of the type. |
| WsErrors.ReconnectBudget | chat-core/src/utils/websocketErrorHandler.js:98-141 | With `_shouldReconnect` (lines 246-252): over n consecutive errors of a planned type, the corrected handler reconnects `min(n, maxRetries - count)` times. As written, it reconnects one time fewer. |
| WsErrors.UnplannedTypesAlwaysReconnect | chat-core/src/utils/websocketErrorHandler.js:246-252 | A type with no recovery strategy always reconnects. |
| WsErrors.InvalidCredentialsNeverReconnect | chat-core/src/utils/websocketErrorHandler.js:109-115 | An authentication error whose message says `invalid credentials` never reconnects. |
| WsErrors.ConnectionRetriesOneShort | chat-core/src/utils/websocketErrorHandler.js:100-141 | Concrete case: from fresh stats, five connection errors reconnect four times as written and five times corrected. |
| Reports.BuildDateFilter | chat-admin/src/services/reports.js:294-310 | The number of `?` placeholders equals the number of parameters, which are the present dates in order. The clause is empty iff neither date is given, and otherwise it filters `created_at`. |
| Reports.OnePlaceholder | chat-admin/src/services/reports.js:302-306 | A clause with one trailing placeholder has one `?`. |
| Reports.TwoPlaceholders | chat-admin/src/services/reports.js:299 | The two-sided clause has exactly two `?`. |
| Reports.BuildGroupByClause | chat-admin/src/services/reports.js:313-341 | A known grouping gives its clauses, and anything else gives the day clauses. |
| Reports.GroupingsAreDistinct | chat-admin/src/services/reports.js:313-341 | Two different supported groupings give different clauses and different `GROUP BY` expressions. |
| Reports.UnknownGroupingIsDay | chat-admin/src/services/reports.js:313-341 | Every value gives one of the four supported clause sets. An unsupported value gives the day clauses. |
| Reports.Keys | chat-admin/src/services/reports.js:349 | The header is the first row's property names, in order. |
| Reports.Get | chat-admin/src/services/reports.js:354 | A property is the row's value under that name, or missing. |
| Reports.Escape | chat-admin/src/services/reports.js:357 | Escaping only adds quotes: every other character occurs in the result iff it occurs in the input. |
| Reports.Field | chat-admin/src/services/reports.js:353-359 | A string with a comma or a quote is wrapped in quotes with inner quotes doubled. Other strings are kept as they are, and a missing value is empty. |
| Reports.ConvertToCsv | chat-admin/src/services/reports.js:344-364 | An empty or non-array input gives `""`. Otherwise the output starts with the header line. |
| Reports.UnescapeEscape | chat-admin/src/services/reports.js:357 | Collapsing doubled quotes undoes the escaping. |
| Reports.StringFieldsReadBack | chat-admin/src/services/reports.js:355-358 | Every string field reads back as the original string. |
| Reports.FieldNewlineFree | chat-admin/src/services/reports.js:353-359 | A value without a newline gives a field without one. |
| Reports.LineNewlineFree | chat-admin/src/services/reports.js:352-361 | A row without newlines gives a line without one. |
| Reports.OneLinePerRow | chat-admin/src/services/reports.js:349-363 | With no newline in the data, the output has the header plus one line per row: `n` newline characters. |
| Reports.NewlinesAreNotEscaped | chat-admin/src/services/reports.js:355-358 | A value containing a newline is not quoted, so it adds an extra line. |
| Seqs.LastN | ai-service/src/utils/context.js:26-28 | The result is the newest `n` elements, in order. |
| Seqs.Reverse | chat-api/src/session/manager.py:413-417 | The result has the same elements in reverse order. |
| Seqs.CountJoin | chat-admin/src/services/reports.js:363 | Joining `k` separator-free parts with a separator adds exactly `k-1` separators. |
| Seqs.IntText | chat-core/src/utils/websocketErrorHandler.js:183 | `String(n)` is never empty and starts with `-` exactly for negative numbers. |

## Left out

- Sockets, Redis, the database and the HTTP provider clients are not modelled; each call is an oracle parameter (a reply function, a `sendThrows`/`sendSucceeds` flag, a raw knowledge-base response, a saved message id).
- Concurrency, `asyncio` tasks, timers and event emitters are not modelled: the background loops are modelled as one sweep each, and every `await` is read as completing in program order.
- Redis pipelines in `SessionManager.js` and in the corrected rate limiter are read as running their commands in order with immediate results; pipeline result arrays and their per-command errors are not modelled, and neither are WRONGTYPE replies (`RedisSessions.Inv` rules them out). The rate limiter as written never reaches a pipeline result (see Findings).
- Logging, metrics counters and emitted events (`messagesSent`, `emit('connection')` and the like) are not modelled; they do not affect any returned value.
- Ids from `uuid4`/`uuidv4` are parameters; where a fresh id matters, the contract requires it not to be in use.
- Time is an integer. ISO timestamps are opaque strings passed in; `datetime` arithmetic is seconds.
- AiGateway.SendMessage: the providers called are only pinned down for the first `retry_attempts` calls and the first fallback call, because with fuel the deeper recursion has no closed form beyond what `FallbackNeverTerminates` states. That every call before the answer failed is stated for the whole run.
- AiGateway.StreamMessage: the provider stream is an oracle returning its fragments and whether it fails after them; the chunking and SSE parsing are in the provider clients.
- `AIService.stream_chat_completion`, `get_default_system_prompt` and `check_service_availability` are not modelled: the first is `CompletionMessages` fed to `stream_message`, the other two are fixed text and a network probe.
- `DashScopeClient._executeKnowledgeCall` is an oracle (`DashScope.Exec`); the source itself only simulates the call.
- Float backoff factors and jittered client reconnection are not modelled; `WsErrors.Strategy` keeps backoff factors in tenths and the handler never computes a delay from them.
- `_analyzeError`, `_categorizeError`, `_matchErrorPattern`, `_getSeverity` and `_getRecommendations` are not modelled: they classify free-text error messages with regular expressions, so the error type is a parameter. No entry of `ERROR_PATTERNS` carries a severity, so the pattern branch of `_getSeverity` never applies.
- `getErrorStats`, `resetErrorStats` and the log formatting of the error handler are not modelled: they copy or clear the stats map.
- `ConnectionPool.getMetrics`, `closeAll`, `destroy`, `startPeriodicCleanup` and the `close`/`error`/`pong` socket handlers are not modelled: metrics, shutdown and timers.
- `ConnectionPool.js` stamps `Date` objects; the model uses integer milliseconds.
- `ConnectionManager.getConnectionDetails`, `getAllConnections`, `getAllWsConnections` and `getClientCount` (chat-core) are not modelled: each is a plain read of the table.
- `websocket/manager.py` `get_session_connections`, `get_user_connections`, `get_connection_count`, `get_authenticated_count` and `shutdown` are not modelled: plain reads and shutdown.
- `SessionStore`: `WellKeyed` (every record is stored under its own id) is a requirement of the lemmas that need it, because `_save_session` keys records that way and nothing else writes them.
- SessionStore.CleanupExpiredSessions: this is the corrected sweep, whose lookup closes expired sessions. As written the expired branch is dead, because `get_session` never returns an expired session, and expired sessions stay ACTIVE; `SessionStore.CleanupExpiredSessionsAsWritten` states that behaviour.
- SessionStore.SweepOneFacts: it states the corrected step; `SessionStore.SweepOneAsWrittenFacts` states the step as written.
- SessionStore.TwoSwitchesLogTwo: it states the corrected switch; as written a live switch raises (`SessionStore.LiveSwitchFailsAsWritten`).
- SessionStore.DeleteSession: it uses the order-keeping index removal; `SessionStore.DeleteSessionAsWritten` uses the reversing one.
- SessionStore.CloseSession: it states the corrected close. As written an expired session gives False and stays ACTIVE, and the removal reverses both indices (`SessionStore.CloseSessionAsWritten`).
- SessionStore.CollectSessions: it uses the corrected lookup, which closes expired sessions; as written the store is unchanged (`SessionStore.CollectSessionsAsWritten`).
- SessionStore.GetUserSessions: it uses the corrected lookup; `SessionStore.GetUserSessionsAsWritten` leaves the store unchanged.
- SessionStore.EvictIfFull: it uses the corrected close, which keeps the order of both indices; `SessionStore.EvictIfFullAsWritten` reverses them.
- SessionStore.CreateSession: it uses the corrected listing and eviction, so expired listed sessions are closed and the indices keep their order; `SessionStore.CreateSessionAsWritten` states the source's behaviour.
- SessionStore.UpdateSession: on the not-found path it closes an expired session through the corrected lookup; `SessionStore.UpdateSessionAsWritten` leaves the store unchanged.
- SessionStore.UpdateActivity: when it gives false it closes an expired session through the corrected lookup; `SessionStore.UpdateActivityAsWritten` leaves the store unchanged.
- `SessionStore`: `get_active_session_count` and `_save_session`'s JSON serialisation and TTL are not modelled; the record store is a map without expiry. The index TTLs are left out too: `_add_to_user_sessions` sets an expiry on the user list (chat-api/src/session/manager.py:406), and the `LPUSH` rebuild in `_remove_from_user_sessions` creates a new list without one.
- `RedisSessions`: `getSession`, `getSessionTTL`, `getActiveSessionsCount` and `getUserSessions` are not modelled; they are reads of the key space that no other operation depends on.
- `RedisSessions.CleanupExpiredSessions`: it states bounds and framing, not an exact count; `CleanupDeletesExpiredSession`, `CleanupKeepsLiveSession` and `CleanupAtListingTimeCleansNothing` state which sessions are cleaned.
- `RedisSessions`: JSON encoding of history entries is abstracted to a `Json(message)` item; non-JSON entries are `Raw(text)`.
- RateLimit.Dispatch: it states the corrected limiter (`CheckRateLimit` with the `ZCARD` reply as the count). As written every request passes (`RateLimit.DispatchAsWritten`). With no client, `_check_rate_limit` returns `False`, and the middleware ignores that value, so both read it as a pass.
- `RateLimit`: `_get_client_id`, `_get_client_ip` and `_add_rate_limit_headers` are not modelled (request parsing and headers).
- RateLimit.IsAllowed: it states the corrected limiter; `RateLimit.IsAllowedAsWritten` states that as written every call with a client fails open. The error path is modelled as a broken backend; the error text in the info map is not.
- `RateLimiter.reset` is not modelled: it deletes a key.
- `Orchestrator`: only `_process_ai_response_async` and the conversation resolution of `send_message` are modelled; the ORM queries and the other `MessageService` methods are database CRUD.
- `Orchestrator`: a Python string subclass of the agent enum is modelled by its value.
- Reports.Field: values other than strings, integers, `null` and `undefined` (dates, booleans) are modelled by their rendered text (`Other(rendered)`); JavaScript's exact rendering of those values is not modelled. `null`, `undefined` and an absent property are `Missing`, which `join` renders as the empty field.
- Reports.Keys: JavaScript's `Object.keys` lists integer-like keys first, in ascending order; the model keeps insertion order for every key, so rows with integer-like property names are not modelled.
- `Reports`: the database queries of the report service are not modelled; only the three pure helpers are.
- Non-ASCII text handling (case folding, normalisation) plays no role here; strings are sequences of characters.

## Findings

| source | as written | input that shows it | evidently intended | confidence | as-written member | corrected member |
|---|---|---|---|---|---|---|
| chat-api/src/ai/service.py:66-81 | After its retries, each provider falls back to the other by calling `send_message`, which again falls back on failure. The recursion ends only at the interpreter's recursion limit; each level swallows the deeper error and raises its own, so the call raises after hundreds of levels of retries and sleeps | both providers always fail | one fallback attempt, then raise | not executed; high | AiGateway.SendMessage, AiGateway.FallbackNeverTerminates | AiGateway.SendMessageOnceFallback, AiGateway.OnceFallbackRaisesWhenAllFail |
| chat-api/src/ai/service.py:127-146 | A failing stream falls back by re-entering `stream_message` on the other provider, which falls back again on failure. Every failed stream's fragments have already been yielded. The recursion ends only at the interpreter's recursion limit, whose error the parent level swallows before raising | every stream fails | one fallback stream, then raise | not executed; high | AiGateway.StreamMessage, AiGateway.StreamFallbackNeverTerminates | AiGateway.StreamMessageOnceFallback |
| chat-api/src/session/manager.py:121-124 | `get_session` closes an expired session through `close_session`, which begins with `get_session` | any session whose `expires_at` has passed | the expired session is marked CLOSED and `None` returned | not executed; high | SessionStore.GetSessionAsWritten, SessionStore.ExpiredSessionNeverClosed, SessionStore.CleanupExpiredSessionsAsWritten, SessionStore.GetUserSessionsAsWritten, SessionStore.UpdateSessionAsWritten, SessionStore.UpdateActivityAsWritten, SessionStore.ExpiredStaysActiveAsWritten | SessionStore.GetSession, SessionStore.CloseSession, SessionStore.CleanupExpiredSessions, SessionStore.GetUserSessions, SessionStore.UpdateSession, SessionStore.UpdateActivity |
| chat-api/src/session/manager.py:408-430 | index removal deletes the id, then rebuilds the list with `lpush`, reversing it | removing `s3` from `[s3, s2, s1]` gives `[s1, s2]` | the remaining ids keep their order | not executed; high | SessionStore.RemoveFromListAsWritten, SessionStore.RemovalReversesOrder, SessionStore.DeleteSessionAsWritten, SessionStore.DeleteReversesIndexAsWritten, SessionStore.CloseSessionAsWritten, SessionStore.EvictIfFullAsWritten, SessionStore.CreateSessionAsWritten, SessionStore.CreateReversesIndexAsWritten | SessionStore.RemoveFromList, SessionStore.RemoveFromListMultiset, SessionStore.DeleteSession, SessionStore.CloseSession, SessionStore.EvictIfFull, SessionStore.CreateSession |
| chat-api/src/middleware/rate_limit.py:134-166 | the sorted-set member is `str(current_time)` in whole seconds; this concerns the limiter once it reads the `ZCARD` reply (see the row on lines 143-174) | limit 2, three requests in the same second: all admitted | every request occupies its own slot | not executed; high | RateLimit.SameSecondBurstAllAdmitted, RateLimit.ThreeRequestsLimitTwo | RateLimit.DistinctMembersBounded |
| chat-api/src/websocket/manager.py:143-157 | re-authentication files the connection under the new user and session without unfiling it from the old ones | authenticate `c` as (u1, s1), then as (u2, s2), then disconnect: `c` stays under u1 and s1 | the connection is moved | not executed; high | WsRegistry.AuthenticateAsWritten, WsRegistry.StaleEntryAfterReauthentication | WsRegistry.Authenticate, WsRegistry.AuthenticatePreservesInv |
| chat-api/src/middleware/rate_limit.py:143-174 | the awaited `redis.asyncio` pipeline is compared with an int, which raises `TypeError`, and the handler lets the request pass; with the middleware constructed without a client, `self.redis` is the module's `redis_manager`, which is `None` | admin limit 1, two admin requests in one window: both pass | the second request is rejected with the limit's details | not executed; high | RateLimit.DispatchAsWritten, RateLimit.FullWindowIgnoredAsWritten, RateLimit.IsAllowedAsWritten | RateLimit.Dispatch, RateLimit.CheckRateLimit, RateLimit.SecondAdminRequestInWindow |
| chat-api/src/session/manager.py:317-336 | the switch record reads `session.agent_type.value`, but records are loaded with `use_enum_values`, so the agent type is a `str` and the access raises | any switch on a live session | the log gains the record and the session is saved | not executed; high | SessionStore.SwitchAgentAsWritten, SessionStore.LiveSwitchFailsAsWritten | SessionStore.SwitchAgent, SessionStore.TwoSwitchesLogTwo |
| chat-session/src/managers/SessionManager.js:116-131 | `switchAgent` rewrites the agent key with `SET`, which clears its TTL | create a session, switch agent, let the TTL pass: the metadata is gone but the agent key remains | the agent key expires with the session | not executed; high | RedisSessions.SwitchAgentAsWritten, RedisSessions.StaleAgentOutlivesSession | RedisSessions.SwitchAgent, RedisSessions.SwitchThenGetAgent |
| chat-core/src/utils/websocketErrorHandler.js:130-141 | `handleError` updates the error count before `_shouldReconnect` reads it, so `attempt < maxRetries` sees this error already counted | fresh stats, five `connection` errors: only four reconnects | `maxRetries` reconnects per type | not executed; medium | WsErrors.HandleErrorAsWritten, WsErrors.ConnectionRetriesOneShort | WsErrors.HandleError, WsErrors.ReconnectBudget |
