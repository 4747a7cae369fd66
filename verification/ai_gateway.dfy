/** The chat API's AI gateway (`AIService`): provider selection, retries with
    linear back-off, fallback to the other provider, streaming with fallback,
    the request `chat_completion` sends, and the history-to-context builder.

    A provider call is external. `reply(p, n)` is what the `n`-th client call of
    the whole run (counting from 0) returns when it goes to provider `p`; a
    `Failed` reply stands for every `AIServiceException` the clients raise
    (client missing, HTTP error, empty answer). `Sleep`s are recorded, not
    performed. The fallback recursion of the source has no bound, so the
    as-written operations take a `fuel` bound on its depth and report
    `Exhausted` when the recursion would have gone deeper. */
module AiGateway {
  import opened Wrappers
  import Seqs

  datatype Provider = DashScope | OpenAI | Unknown(name: string)

  const DEFAULT_PROVIDER_NAME := "dashscope"

  /** `provider or self.default_provider`, then the name dispatch. */
  function Resolve(requested: string): (p: Provider)
    ensures requested == "" || requested == "dashscope" ==> p == DashScope
    ensures requested == "openai" ==> p == OpenAI
    ensures p.Unknown? <==> requested !in {"", "dashscope", "openai"}
    ensures p.Unknown? ==> p.name == requested
  {
    var name := if requested == "" then DEFAULT_PROVIDER_NAME else requested;
    if name == "dashscope" then DashScope
    else if name == "openai" then OpenAI
    else Unknown(name)
  }

  /** The provider name the source passes around. */
  function Name(p: Provider): string {
    match p
    case DashScope => "dashscope"
    case OpenAI => "openai"
    case Unknown(n) => n
  }

  /** Resolution and naming are inverse: a given name resolves to the provider
      of that name, and every provider a name can denote is found again from its
      name. A missing name is the default provider's. */
  lemma ResolveInvertsName(requested: string, p: Provider)
    ensures requested != "" ==> Name(Resolve(requested)) == requested
    ensures Name(Resolve("")) == DEFAULT_PROVIDER_NAME
    ensures !(p.Unknown? && p.name in {"", "dashscope", "openai"}) ==> Resolve(Name(p)) == p
  {
  }

  /** The provider each known provider falls back to. */
  function Other(p: Provider): (q: Option<Provider>)
    ensures q.Some? <==> !p.Unknown?
    ensures q.Some? ==> !q.value.Unknown? && q.value != p
  {
    match p
    case DashScope => Some(OpenAI)
    case OpenAI => Some(DashScope)
    case Unknown(_) => None
  }

  datatype Reply = Answer(text: string) | Failed

  /** `AI_RETRY_ATTEMPTS` and `AI_RETRY_DELAY` (defaults 3 and 1 second). */
  datatype Config = Config(retryAttempts: int, retryDelay: int)

  const DEFAULT_CONFIG := Config(3, 1)

  datatype Outcome = Replied(text: string) | Raised | Exhausted

  /** What one `send_message` did: its outcome, the providers it called in
      order, and the back-off sleeps it took in order. */
  datatype Run = Run(outcome: Outcome, calls: seq<Provider>, sleeps: seq<int>)

  ghost predicate AlwaysFails(reply: (Provider, nat) -> Reply) {
    forall p: Provider, n: nat :: reply(p, n) == Failed
  }

  /** Every call of `calls`, the first being call number `made` of the run,
      failed. */
  ghost predicate AllFailed(calls: seq<Provider>, reply: (Provider, nat) -> Reply, made: nat)
    decreases |calls|
  {
    |calls| == 0 || (reply(calls[0], made) == Failed && AllFailed(calls[1..], reply, made + 1))
  }

  /** Every call of the run before its answer failed, or every call, when
      there is no answer. */
  ghost predicate FailsUntilAnswer(r: Run, reply: (Provider, nat) -> Reply, made: nat) {
    if r.outcome.Replied? then |r.calls| > 0 && AllFailed(r.calls[..|r.calls| - 1], reply, made)
    else AllFailed(r.calls, reply, made)
  }

  /** Failing calls followed by failing calls. */
  lemma {:induction false} AllFailedAppend(a: seq<Provider>, b: seq<Provider>, reply: (Provider, nat) -> Reply, made: nat)
    requires AllFailed(a, reply, made) && AllFailed(b, reply, made + |a|)
    ensures AllFailed(a + b, reply, made)
    decreases |a|
  {
    if |a| == 0 {
      assert a + b == b;
    } else {
      AllFailedAppend(a[1..], b, reply, made + 1);
      assert (a + b)[1..] == a[1..] + b;
    }
  }

  /** Calls that all went to one provider, whose answers at those call numbers
      were failures, all failed. */
  lemma {:induction false} OneProviderFailed(calls: seq<Provider>, p: Provider, reply: (Provider, nat) -> Reply, made: nat)
    requires forall i :: 0 <= i < |calls| ==> calls[i] == p
    requires forall n: nat :: made <= n < made + |calls| ==> reply(p, n) == Failed
    ensures AllFailed(calls, reply, made)
    decreases |calls|
  {
    if |calls| > 0 {
      assert reply(p, made) == Failed;
      OneProviderFailed(calls[1..], p, reply, made + 1);
    }
  }

  /** A fallback run after failed retries: its calls before the answer, or all
      of them when there is none, failed. */
  lemma FallbackCallsFailed(first: Run, sub: Run, reply: (Provider, nat) -> Reply, made: nat)
    requires AllFailed(first.calls, reply, made)
    requires FailsUntilAnswer(sub, reply, made + |first.calls|)
    ensures FailsUntilAnswer(Fallback(first, sub), reply, made)
  {
    if sub.outcome.Replied? {
      FailedBeforeAnswer(first.calls, sub.calls, reply, made);
    } else {
      AllFailedAppend(first.calls, sub.calls, reply, made);
    }
  }

  /** A run that ends with an answer: every call before the last failed. */
  lemma FailedBeforeAnswer(a: seq<Provider>, b: seq<Provider>, reply: (Provider, nat) -> Reply, made: nat)
    requires |b| > 0 && AllFailed(a, reply, made) && AllFailed(b[..|b| - 1], reply, made + |a|)
    ensures AllFailed((a + b)[..|a + b| - 1], reply, made)
  {
    assert (a + b)[..|a + b| - 1] == a + b[..|b| - 1];
    AllFailedAppend(a, b[..|b| - 1], reply, made);
  }

  /** The retry loop of `send_message` on one provider, from attempt `k` on:
      an unknown provider fails without a client call; a failure before the last
      attempt sleeps `retry_delay * (k + 1)` and tries again; the last failure
      ends the loop with `Raised`. */
  function Retry(p: Provider, k: int, cfg: Config, reply: (Provider, nat) -> Reply, made: nat): (r: Run)
    requires 0 <= k
    ensures r.outcome != Exhausted
    ensures p.Unknown? ==> r.calls == [] && r.outcome == Raised
    ensures forall i :: 0 <= i < |r.calls| ==> r.calls[i] == p
    ensures |r.calls| <= if k < cfg.retryAttempts then cfg.retryAttempts - k else 0
    ensures forall i :: 0 <= i < |r.sleeps| ==> r.sleeps[i] == cfg.retryDelay * (k + i + 1)
    ensures |r.sleeps| <= if k < cfg.retryAttempts then cfg.retryAttempts - k - 1 else 0
    ensures r.outcome.Replied? ==> |r.calls| > 0 && reply(p, made + |r.calls| - 1) == Answer(r.outcome.text)
    ensures forall n: nat :: made <= n < made + |r.calls| - 1 ==> reply(p, n) == Failed
    ensures r.outcome.Raised? && !p.Unknown? ==> |r.calls| == (if k < cfg.retryAttempts then cfg.retryAttempts - k else 0)
    ensures r.outcome.Raised? && |r.calls| > 0 ==> reply(p, made + |r.calls| - 1) == Failed
    ensures (forall n: nat :: reply(p, n) == Failed) ==> r.outcome == Raised
    ensures r.outcome.Raised? ==> |r.sleeps| == (if k < cfg.retryAttempts then cfg.retryAttempts - k - 1 else 0)
    decreases cfg.retryAttempts - k
  {
    if k >= cfg.retryAttempts then Run(Raised, [], [])
    else
      var calls := if p.Unknown? then [] else [p];
      var answer := if p.Unknown? then Failed else reply(p, made);
      if answer.Answer? then Run(Replied(answer.text), calls, [])
      else if k == cfg.retryAttempts - 1 then Run(Raised, calls, [])
      else
        var rest := Retry(p, k + 1, cfg, reply, made + |calls|);
        Run(rest.outcome, calls + rest.calls, [cfg.retryDelay * (k + 1)] + rest.sleeps)
  }

  /** The run of a fallback: the failed retries of the requested provider,
      then the other provider's run, whose outcome it takes. */
  function Fallback(first: Run, sub: Run): (r: Run)
    ensures r.calls == first.calls + sub.calls && r.sleeps == first.sleeps + sub.sleeps
    ensures r.outcome.Replied? <==> sub.outcome.Replied?
  {
    Run(if sub.outcome.Raised? then Raised else sub.outcome, first.calls + sub.calls, first.sleeps + sub.sleeps)
  }

  /** The fallback branch of `send_message`: after the requested provider's
      failed retries `first`, the other provider's whole `send_message` run.
      The result keeps the shape of both runs and still stops at the first
      answer. */
  function FallBackTo(fuel: nat, p: Provider, cfg: Config, reply: (Provider, nat) -> Reply, made: nat, first: Run): (r: Run)
    requires fuel > 0 && !p.Unknown? && cfg.retryAttempts > 0
    requires |first.calls| == cfg.retryAttempts && |first.sleeps| == cfg.retryAttempts - 1
    requires forall i :: 0 <= i < |first.calls| ==> first.calls[i] == p
    requires forall i :: 0 <= i < |first.sleeps| ==> first.sleeps[i] == cfg.retryDelay * (i + 1)
    requires AllFailed(first.calls, reply, made)
    ensures forall i :: 0 <= i < |r.calls| && i < cfg.retryAttempts ==> r.calls[i] == p
    ensures 0 < cfg.retryAttempts < |r.calls| ==> r.calls[cfg.retryAttempts] == Other(p).value
    ensures forall i :: 0 <= i < |r.sleeps| && i < cfg.retryAttempts - 1 ==> r.sleeps[i] == cfg.retryDelay * (i + 1)
    ensures r.outcome.Replied? ==> |r.calls| > 0 && reply(r.calls[|r.calls| - 1], made + |r.calls| - 1) == Answer(r.outcome.text)
    ensures FailsUntilAnswer(r, reply, made)
    decreases fuel, 0
  {
    var sub := SendMessage(fuel - 1, Other(p).value, cfg, reply, made + |first.calls|);
    FallbackCallsFailed(first, sub, reply, made);
    Fallback(first, sub)
  }

  /** `send_message` as written: after its retries fail, a known provider calls
      `send_message` on the other provider, whose own failure falls back again,
      with nothing to stop the alternation. Each fallback costs one unit of fuel.
      The run stops at the first answer: every call before it failed. */
  function SendMessage(fuel: nat, p: Provider, cfg: Config, reply: (Provider, nat) -> Reply, made: nat): (r: Run)
    ensures p.Unknown? ==> r.outcome == Raised && r.calls == []
    ensures forall i :: 0 <= i < |r.calls| && i < cfg.retryAttempts ==> r.calls[i] == p
    ensures 0 < cfg.retryAttempts < |r.calls| ==> r.calls[cfg.retryAttempts] == Other(p).value
    ensures cfg.retryAttempts <= 0 ==> r.calls == [] && r.outcome == Raised
    ensures forall i :: 0 <= i < |r.sleeps| && i < cfg.retryAttempts - 1 ==> r.sleeps[i] == cfg.retryDelay * (i + 1)
    ensures r.outcome.Replied? ==> |r.calls| > 0 && reply(r.calls[|r.calls| - 1], made + |r.calls| - 1) == Answer(r.outcome.text)
    ensures FailsUntilAnswer(r, reply, made)
    decreases fuel, 1
  {
    var first := Retry(p, 0, cfg, reply, made);
    RetryFailsUntilAnswer(p, cfg, reply, made);
    if first.outcome.Replied? || cfg.retryAttempts <= 0 || Other(p).None? then first
    else if fuel == 0 then Run(Exhausted, first.calls, first.sleeps)
    else
      FallBackTo(fuel, p, cfg, reply, made, first)
  }

  /** Once the requested provider's retries have all failed, the run is those
      calls followed by the other provider's whole `send_message` run. */
  lemma FallsBackAfterRetries(fuel: nat, p: Provider, cfg: Config, reply: (Provider, nat) -> Reply, made: nat)
    requires fuel > 0 && !p.Unknown? && cfg.retryAttempts > 0
    requires Retry(p, 0, cfg, reply, made).outcome == Raised
    ensures var first := Retry(p, 0, cfg, reply, made);
            SendMessage(fuel, p, cfg, reply, made) ==
              Fallback(first, SendMessage(fuel - 1, Other(p).value, cfg, reply, made + cfg.retryAttempts))
  {
    var first := Retry(p, 0, cfg, reply, made);
    RetryFailsUntilAnswer(p, cfg, reply, made);
    assert SendMessage(fuel, p, cfg, reply, made) == FallBackTo(fuel, p, cfg, reply, made, first);
  }

  /** The first run of `send_message`, its retries on the requested provider,
      fails until its answer. */
  lemma RetryFailsUntilAnswer(p: Provider, cfg: Config, reply: (Provider, nat) -> Reply, made: nat)
    ensures FailsUntilAnswer(Retry(p, 0, cfg, reply, made), reply, made)
  {
    var first := Retry(p, 0, cfg, reply, made);
    if first.outcome.Replied? {
      OneProviderFailed(first.calls[..|first.calls| - 1], p, reply, made);
    } else {
      OneProviderFailed(first.calls, p, reply, made);
    }
  }

  /** The as-written run with `fuel` levels of fallback left ends `Exhausted`
      after `fuel + 1` rounds of `retry_attempts` calls. */
  ghost predicate ExhaustedAfterRounds(fuel: nat, p: Provider, cfg: Config, reply: (Provider, nat) -> Reply, made: nat) {
    var r := SendMessage(fuel, p, cfg, reply, made);
    r.outcome == Exhausted && |r.calls| == (fuel + 1) * cfg.retryAttempts
  }

  /** When every provider call fails, the as-written fallback never finishes:
      whatever depth bound is allowed, the run is still alternating when it is used up. */
  lemma {:induction false} FallbackNeverTerminates(fuel: nat, p: Provider, cfg: Config, reply: (Provider, nat) -> Reply, made: nat)
    requires AlwaysFails(reply) && !p.Unknown? && cfg.retryAttempts >= 1
    ensures ExhaustedAfterRounds(fuel, p, cfg, reply, made)
  {
    if fuel == 0 {
      FallbackBase(fuel, p, cfg, reply, made);
    } else {
      FallbackNeverTerminates(fuel - 1, Other(p).value, cfg, reply, made + cfg.retryAttempts);
      FailedFallbackStep(fuel, p, cfg, reply, made);
    }
  }

  /** The last level of the as-written fallback: with no depth left, failed
      retries end the run as exhausted. */
  lemma FallbackBase(fuel: nat, p: Provider, cfg: Config, reply: (Provider, nat) -> Reply, made: nat)
    requires fuel == 0 && !p.Unknown? && cfg.retryAttempts >= 1
    requires AlwaysFails(reply)
    ensures ExhaustedAfterRounds(fuel, p, cfg, reply, made)
  {
    RetryUsesAllAttempts(p, cfg, reply, made);
  }

  /** One level of the as-written fallback: once the provider's retries have all
      failed and the other provider's run is exhausted, so is this one, after
      the provider's own attempts, one round more than the other's. */
  lemma FallbackStep(fuel: nat, p: Provider, cfg: Config, reply: (Provider, nat) -> Reply, made: nat)
    requires fuel > 0 && !p.Unknown? && cfg.retryAttempts >= 1
    requires Retry(p, 0, cfg, reply, made).outcome == Raised && |Retry(p, 0, cfg, reply, made).calls| == cfg.retryAttempts
    requires ExhaustedAfterRounds(fuel - 1, Other(p).value, cfg, reply, made + cfg.retryAttempts)
    ensures ExhaustedAfterRounds(fuel, p, cfg, reply, made)
  {
    FallsBackAfterRetries(fuel, p, cfg, reply, made);
    AddOneRound(|SendMessage(fuel, p, cfg, reply, made).calls|,
                |SendMessage(fuel - 1, Other(p).value, cfg, reply, made + cfg.retryAttempts).calls|,
                fuel, cfg.retryAttempts);
  }

  /** `FallbackStep` when every provider call fails. */
  lemma FailedFallbackStep(fuel: nat, p: Provider, cfg: Config, reply: (Provider, nat) -> Reply, made: nat)
    requires fuel > 0 && !p.Unknown? && cfg.retryAttempts >= 1
    requires AlwaysFails(reply)
    requires ExhaustedAfterRounds(fuel - 1, Other(p).value, cfg, reply, made + cfg.retryAttempts)
    ensures ExhaustedAfterRounds(fuel, p, cfg, reply, made)
  {
    RetryUsesAllAttempts(p, cfg, reply, made);
    FallbackStep(fuel, p, cfg, reply, made);
  }

  lemma AddOneRound(total: int, rest: int, rounds: int, per: int)
    requires rest == rounds * per && total == per + rest
    ensures total == (rounds + 1) * per
  {
  }

  lemma RetryUsesAllAttempts(p: Provider, cfg: Config, reply: (Provider, nat) -> Reply, made: nat)
    requires AlwaysFails(reply) && !p.Unknown? && cfg.retryAttempts >= 1
    ensures Retry(p, 0, cfg, reply, made).outcome == Raised && |Retry(p, 0, cfg, reply, made).calls| == cfg.retryAttempts
  {
    assert forall n: nat :: reply(p, n) == Failed;
  }

  /** A primary that always fails and a secondary that answers at once: the
      primary is tried `retry_attempts` times, then the secondary's answer is
      returned. */
  lemma {:induction false} PrimaryFailsSecondaryAnswers(fuel: nat, p: Provider, cfg: Config, reply: (Provider, nat) -> Reply, text: string)
    requires !p.Unknown? && cfg.retryAttempts >= 1 && fuel >= 1
    requires forall n: nat :: reply(p, n) == Failed
    requires forall n: nat :: reply(Other(p).value, n) == Answer(text)
    ensures SendMessage(fuel, p, cfg, reply, 0).outcome == Replied(text)
    ensures |SendMessage(fuel, p, cfg, reply, 0).calls| == cfg.retryAttempts + 1
  {
    var first := Retry(p, 0, cfg, reply, 0);
    assert first.outcome == Raised;
    var q := Other(p).value;
    var second := Retry(q, 0, cfg, reply, |first.calls|);
    assert reply(q, |first.calls|) == Answer(text);
    FallsBackAfterRetries(fuel, p, cfg, reply, 0);
    assert SendMessage(fuel - 1, q, cfg, reply, cfg.retryAttempts) == second;
  }

  /** `send_message` with the fallback taken at most once, the evidently
      intended behaviour (see Findings): the other provider is tried with its own
      retries but does not fall back in turn. It needs no depth bound. */
  function SendMessageOnceFallback(p: Provider, cfg: Config, reply: (Provider, nat) -> Reply, made: nat): (r: Run)
    ensures r.outcome != Exhausted
    ensures p.Unknown? ==> r.outcome == Raised && r.calls == []
    ensures |r.calls| <= 2 * (if cfg.retryAttempts > 0 then cfg.retryAttempts else 0)
    ensures forall i :: 0 <= i < |r.calls| && i < cfg.retryAttempts ==> r.calls[i] == p
    ensures forall i :: 0 <= i < |r.sleeps| && i < cfg.retryAttempts - 1 ==> r.sleeps[i] == cfg.retryDelay * (i + 1)
    ensures r.outcome.Replied? ==> |r.calls| > 0 && reply(r.calls[|r.calls| - 1], made + |r.calls| - 1) == Answer(r.outcome.text)
  {
    var first := Retry(p, 0, cfg, reply, made);
    if first.outcome.Replied? || cfg.retryAttempts <= 0 || Other(p).None? then first
    else
      var second := Retry(Other(p).value, 0, cfg, reply, made + |first.calls|);
      Run(second.outcome, first.calls + second.calls, first.sleeps + second.sleeps)
  }

  /** With one fallback, total failure raises after exactly `2 * retry_attempts` calls. */
  lemma OnceFallbackRaisesWhenAllFail(p: Provider, cfg: Config, reply: (Provider, nat) -> Reply, made: nat)
    requires AlwaysFails(reply) && !p.Unknown? && cfg.retryAttempts >= 1
    ensures SendMessageOnceFallback(p, cfg, reply, made).outcome == Raised
    ensures |SendMessageOnceFallback(p, cfg, reply, made).calls| == 2 * cfg.retryAttempts
  {
    var first := Retry(p, 0, cfg, reply, made);
    var second := Retry(Other(p).value, 0, cfg, reply, made + |first.calls|);
    assert first.outcome == Raised && second.outcome == Raised;
  }

  // ---------------------------------------------------------------------------
  // Streaming

  /** What the `n`-th stream a run opens yields: its fragments, and whether it
      raised after them. */
  datatype StreamReply = StreamReply(chunks: seq<string>, fails: bool)

  datatype StreamOutcome = Completed | StreamRaised | StreamExhausted

  /** The fragments the caller received, in order, and the providers whose streams were opened. */
  datatype StreamRun = StreamRun(outcome: StreamOutcome, chunks: seq<string>, streams: seq<Provider>)

  /** `stream_message` as written: the fragments a failing stream already
      yielded stay yielded, and the other provider's stream is then consumed from
      its start; that stream's own failure falls back again without bound. */
  function StreamMessage(fuel: nat, p: Provider, stream: (Provider, nat) -> StreamReply, made: nat): (r: StreamRun)
    ensures p.Unknown? ==> r == StreamRun(StreamRaised, [], [])
    ensures !p.Unknown? ==> |r.streams| >= 1 && r.streams[0] == p
    ensures !p.Unknown? ==> Seqs.IsPrefix(stream(p, made).chunks, r.chunks)
    ensures !p.Unknown? && !stream(p, made).fails ==> r == StreamRun(Completed, stream(p, made).chunks, [p])
    decreases fuel
  {
    if p.Unknown? then StreamRun(StreamRaised, [], [])
    else
      var s := stream(p, made);
      if !s.fails then StreamRun(Completed, s.chunks, [p])
      else if fuel == 0 then StreamRun(StreamExhausted, s.chunks, [p])
      else
        var sub := StreamMessage(fuel - 1, Other(p).value, stream, made + 1);
        StreamRun(sub.outcome, s.chunks + sub.chunks, [p] + sub.streams)
  }

  /** A failing stream hands over to the other provider: the caller gets the
      failed stream's fragments followed by the other provider's whole
      `stream_message` run, which ends the same way. At the depth bound the run
      stops exhausted after the failed stream. */
  lemma StreamFallsBackAfterFailure(fuel: nat, p: Provider, stream: (Provider, nat) -> StreamReply, made: nat)
    requires !p.Unknown? && stream(p, made).fails
    ensures fuel == 0 ==> StreamMessage(fuel, p, stream, made) == StreamRun(StreamExhausted, stream(p, made).chunks, [p])
    ensures fuel > 0 ==>
      var sub := StreamMessage(fuel - 1, Other(p).value, stream, made + 1);
      StreamMessage(fuel, p, stream, made) == StreamRun(sub.outcome, stream(p, made).chunks + sub.chunks, [p] + sub.streams)
    ensures fuel > 0 ==> StreamMessage(fuel, p, stream, made).streams[1] == Other(p).value
  {
  }

  /** Streams that always fail alternate between the providers until the depth
      bound is used up: `fuel + 1` streams are opened and the run never completes. */
  lemma {:induction false} StreamFallbackNeverTerminates(fuel: nat, p: Provider, stream: (Provider, nat) -> StreamReply, made: nat)
    requires !p.Unknown?
    requires forall q: Provider, n: nat :: stream(q, n).fails
    ensures StreamMessage(fuel, p, stream, made).outcome == StreamExhausted
    ensures |StreamMessage(fuel, p, stream, made).streams| == fuel + 1
  {
    if fuel > 0 {
      StreamFallbackNeverTerminates(fuel - 1, Other(p).value, stream, made + 1);
    }
  }

  /** `stream_message` with one fallback: a failing primary stream hands over
      to the other provider's stream, whose failure raises. */
  function StreamMessageOnceFallback(p: Provider, stream: (Provider, nat) -> StreamReply, made: nat): (r: StreamRun)
    ensures r.outcome != StreamExhausted
    ensures |r.streams| <= 2
    ensures p.Unknown? ==> r == StreamRun(StreamRaised, [], [])
    ensures !p.Unknown? && stream(p, made).fails ==>
      r.chunks == stream(p, made).chunks + stream(Other(p).value, made + 1).chunks
    ensures r.outcome == Completed <==>
      !p.Unknown? && (!stream(p, made).fails || !stream(Other(p).value, made + 1).fails)
  {
    if p.Unknown? then StreamRun(StreamRaised, [], [])
    else
      var s := stream(p, made);
      if !s.fails then StreamRun(Completed, s.chunks, [p])
      else
        var t := stream(Other(p).value, made + 1);
        StreamRun(if t.fails then StreamRaised else Completed, s.chunks + t.chunks, [p, Other(p).value])
  }

  // ---------------------------------------------------------------------------
  // Request assembly and context building

  datatype ChatMessage = ChatMessage(role: string, content: string)

  /** The message list `chat_completion` sends: the system prompt when it is a
      non-empty string, then the history, then the user's message. */
  function CompletionMessages(userMessage: string, history: Option<seq<ChatMessage>>, systemPrompt: Option<string>): (r: seq<ChatMessage>)
    ensures var h := history.GetOr([]);
      var off := if systemPrompt.Some? && systemPrompt.value != "" then 1 else 0;
      && |r| == off + |h| + 1
      && (off == 1 ==> r[0] == ChatMessage("system", systemPrompt.value))
      && r[off..off + |h|] == h
      && r[|r| - 1] == ChatMessage("user", userMessage)
  {
    var system := if systemPrompt.Some? && systemPrompt.value != "" then [ChatMessage("system", systemPrompt.value)] else [];
    var past := if history.Some? && |history.value| > 0 then history.value else [];
    system + past + [ChatMessage("user", userMessage)]
  }

  /** A persisted chat message as `build_conversation_context` reads it. */
  datatype StoredMessage = StoredMessage(content: string, senderType: string)

  const DEFAULT_MAX_CONTEXT_LENGTH := 4000

  /** Sender kind to protocol role: `contact` is the user, `agent` and `ai` are
      the assistant, every other kind has no role and is skipped. */
  function RoleOf(senderType: string): (role: Option<string>)
    ensures role == Some("user") <==> senderType == "contact"
    ensures role == Some("assistant") <==> senderType in {"agent", "ai"}
    ensures role.Some? ==> role.value in {"user", "assistant"}
  {
    if senderType == "contact" then Some("user")
    else if senderType == "agent" || senderType == "ai" then Some("assistant")
    else None
  }

  /** The chat message a stored message becomes, if its sender has a role. */
  function Converted(m: StoredMessage): seq<ChatMessage> {
    var role := RoleOf(m.senderType);
    if role.Some? then [ChatMessage(role.value, m.content)] else []
  }

  /** The messages that have a role, converted, in their original order. */
  function Kept(ms: seq<StoredMessage>): seq<ChatMessage> {
    if |ms| == 0 then [] else Converted(ms[0]) + Kept(ms[1..])
  }

  function ContentLength(ctx: seq<ChatMessage>): nat {
    if |ctx| == 0 then 0 else |ctx[0].content| + ContentLength(ctx[1..])
  }

  lemma {:induction false} KeptSplit(ms: seq<StoredMessage>, i: nat)
    requires i <= |ms|
    ensures Kept(ms) == Kept(ms[..i]) + Kept(ms[i..])
    decreases i
  {
    if i == 0 {
      assert ms[..0] == [];
      assert ms[0..] == ms;
    } else {
      var rest := ms[1..];
      KeptSplit(rest, i - 1);
      assert ms[..i][0] == ms[0];
      assert ms[..i][1..] == rest[..i - 1];
      assert rest[i - 1..] == ms[i..];
    }
  }

  /** Walking one message further back prepends its conversion. */
  lemma KeptStep(ms: seq<StoredMessage>, i: nat)
    requires 1 <= i <= |ms|
    ensures Kept(ms[i - 1..]) == Converted(ms[i - 1]) + Kept(ms[i..])
  {
    assert ms[i - 1..][1..] == ms[i..];
  }

  /** The message at `i - 1`, when it has a role, sits right before `Kept(ms[i..])` in `Kept(ms)`. */
  lemma KeptAround(ms: seq<StoredMessage>, i: nat)
    requires 1 <= i <= |ms| && RoleOf(ms[i - 1].senderType).Some?
    ensures |Kept(ms)| > |Kept(ms[i..])|
    ensures Kept(ms)[|Kept(ms)| - |Kept(ms[i..])| - 1] == Converted(ms[i - 1])[0]
    ensures Seqs.IsSuffix(Kept(ms[i..]), Kept(ms))
  {
    KeptSplit(ms, i - 1);
    KeptStep(ms, i);
    var before, here, after := Kept(ms[..i - 1]), Converted(ms[i - 1]), Kept(ms[i..]);
    assert |here| == 1;
    var all := before + here + after;
    assert Kept(ms) == all;
    assert all[|before|] == here[0];
    assert all[|before| + 1..] == after;
  }

  lemma ContentLengthCons(m: ChatMessage, ctx: seq<ChatMessage>)
    ensures ContentLength([m] + ctx) == |m.content| + ContentLength(ctx)
  {
    assert ([m] + ctx)[1..] == ctx;
  }

  /** `build_conversation_context`: walk the history newest first, skip senders
      without a role, stop at the first message that would take the summed
      content length over `max_context_length`, and keep the walked messages in
      chronological order. */
  method BuildConversationContext(ms: seq<StoredMessage>, maxContextLength: int) returns (ctx: seq<ChatMessage>)
    ensures Seqs.IsSuffix(ctx, Kept(ms))
    ensures maxContextLength >= 0 ==> ContentLength(ctx) <= maxContextLength
    ensures maxContextLength < 0 ==> ctx == []
    ensures |ctx| < |Kept(ms)| ==>
      ContentLength(ctx) + |Kept(ms)[|Kept(ms)| - |ctx| - 1].content| > maxContextLength
  {
    ctx := [];
    var total := 0;
    var i := |ms|;
    while i > 0
      invariant 0 <= i <= |ms|
      invariant ctx == Kept(ms[i..])
      invariant total == ContentLength(ctx)
      invariant total <= maxContextLength || ctx == []
    {
      KeptStep(ms, i);
      var role := RoleOf(ms[i - 1].senderType);
      if role.Some? {
        var m := ChatMessage(role.value, ms[i - 1].content);
        if total + |m.content| > maxContextLength {
          KeptAround(ms, i);
          return;
        }
        ContentLengthCons(m, ctx);
        ctx := [m] + ctx;
        total := total + |m.content|;
      }
      i := i - 1;
    }
    assert ms[0..] == ms;
  }
}
