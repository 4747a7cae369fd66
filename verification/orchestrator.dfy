/** The chat API's message service: how `send_message` settles the
    conversation a message belongs to, and the event sequence the background AI
    reply task broadcasts to a session.

    The database, the session manager and the AI stream are parameters: the
    session lookup's outcome, whether the history query raises, the provider
    stream's fragments (and whether it raises after them), and the id the saved
    reply receives (or none when saving raises). */
module Orchestrator {
  import opened Wrappers
  import Seqs
  import AiGateway

  /** Sent as the reply when the stream produced no text. */
  const APOLOGY := "抱歉，我现在无法回答您的问题。请稍后再试或联系人工客服。"

  /** The one error text the reply job broadcasts. */
  const AI_UNAVAILABLE := "AI服务暂时不可用，请稍后重试"

  /** A session's `agent_type` attribute: absent, an enum member, or a plain
      string. */
  datatype AgentTag = NoAgentType | EnumMember(value: string) | PlainString(s: string)

  /** What `get_session` gave the reply job. */
  datatype Lookup = Found(tag: AgentTag) | NotFound | LookupRaises

  datatype Event =
    | Typing(sessionId: string, isTyping: bool)
    | AiStream(sessionId: string, content: string, fullContent: string, isComplete: bool, messageId: Option<int>)
    | NewMessage(sessionId: string, id: int, text: string)
    | Error(sessionId: string, error: string)

  /** The AI message row the reply job stores. */
  datatype Saved = Saved(content: string, chunks: nat)

  datatype Outcome = Outcome(events: seq<Event>, saved: Option<Saved>)

  /** The agent type the reply job acts on; a session without one is an AI session. */
  function AgentValue(tag: AgentTag): (v: string)
    ensures tag.NoAgentType? ==> v == "ai"
    ensures tag.EnumMember? ==> v == tag.value
    ensures tag.PlainString? ==> v == tag.s
  {
    match tag
    case NoAgentType => "ai"
    case EnumMember(value) => value
    case PlainString(s) => s
  }

  function ErrorEvent(sid: string): Event {
    Error(sid, AI_UNAVAILABLE)
  }

  /** One `ai_stream` event per fragment, `full` being the text before them. */
  function StreamEvents(sid: string, full: string, chunks: seq<string>): (evs: seq<Event>)
    ensures |evs| == |chunks|
    ensures forall i :: 0 <= i < |chunks| ==> evs[i] == AiStream(sid, chunks[i], full + Seqs.Concat(chunks[..i + 1]), false, None)
    decreases |chunks|
  {
    if |chunks| == 0 then []
    else
      var rest := StreamEvents(sid, full + chunks[0], chunks[1..]);
      var evs := [AiStream(sid, chunks[0], full + chunks[0], false, None)] + rest;
      forall i | 0 <= i < |chunks|
        ensures evs[i] == AiStream(sid, chunks[i], full + Seqs.Concat(chunks[..i + 1]), false, None)
      {
        if i == 0 {
          assert chunks[..1][1..] == [];
        } else {
          assert evs[i] == rest[i - 1];
          assert chunks[..i + 1][1..] == chunks[1..][..i];
        }
      }
      evs
  }

  /** The reply text: the fragments joined, or the apology when that is empty. */
  function FinalText(chunks: seq<string>): string {
    if Seqs.Concat(chunks) == "" then APOLOGY else Seqs.Concat(chunks)
  }

  /** Whether the reply job goes as far as asking the AI for a reply. */
  predicate Generates(lookup: Lookup) {
    lookup.Found? && AgentValue(lookup.tag) == "ai"
  }

  /** The events before the reply is saved: typing on, then the stream. */
  function Streamed(sid: string, chunks: seq<string>): seq<Event> {
    [Typing(sid, true)] + StreamEvents(sid, "", chunks)
  }

  /** What the reply job does once it has the history: stream, stop typing, save,
      announce. */
  function Generate(sid: string, stream: AiGateway.StreamReply, savedId: Option<int>): (r: Outcome)
    ensures |r.events| > |stream.chunks| && r.events[..1 + |stream.chunks|] == Streamed(sid, stream.chunks)
    ensures r.saved.Some? <==> !stream.fails && savedId.Some?
    ensures r.saved.Some? ==>
              var text := FinalText(stream.chunks);
              r.saved.value == Saved(text, |stream.chunks|) &&
              r.events == Streamed(sid, stream.chunks) + [Typing(sid, false), AiStream(sid, "", text, true, savedId), NewMessage(sid, savedId.value, text)]
  {
    var streamed := Streamed(sid, stream.chunks);
    if stream.fails then Outcome(streamed + [ErrorEvent(sid)], None)
    else
      var text := FinalText(stream.chunks);
      var stopped := streamed + [Typing(sid, false)];
      match savedId
      case None => Outcome(stopped + [ErrorEvent(sid)], None)
      case Some(id) =>
        Outcome(stopped + [AiStream(sid, "", text, true, Some(id)), NewMessage(sid, id, text)], Some(Saved(text, |stream.chunks|)))
  }

  /** `_process_ai_response_async`: nothing happens for a missing or non-AI
      session; otherwise the typing indicator, the stream and the saved reply
      follow in that order. */
  function ProcessAiResponse(sid: string, lookup: Lookup, historyRaises: bool, stream: AiGateway.StreamReply, savedId: Option<int>): (r: Outcome)
    ensures !Generates(lookup) && !lookup.LookupRaises? ==> r == Outcome([], None)
    ensures Generates(lookup) && !historyRaises ==>
              |r.events| > |stream.chunks| && r.events[..1 + |stream.chunks|] == Streamed(sid, stream.chunks)
    ensures r.saved.Some? <==> Generates(lookup) && !historyRaises && !stream.fails && savedId.Some?
    ensures r.saved.Some? ==>
              r.saved.value == Saved(FinalText(stream.chunks), |stream.chunks|) &&
              r.events == Streamed(sid, stream.chunks) + [Typing(sid, false), AiStream(sid, "", FinalText(stream.chunks), true, savedId),
                                                          NewMessage(sid, savedId.value, FinalText(stream.chunks))]
  {
    match lookup
    case LookupRaises => Outcome([ErrorEvent(sid)], None)
    case NotFound => Outcome([], None)
    case Found(tag) =>
      if AgentValue(tag) != "ai" then Outcome([], None)
      else if historyRaises then Outcome([ErrorEvent(sid)], None)
      else
        Generate(sid, stream, savedId)
  }

  /** Whether some step of the reply job raises once it has started. */
  predicate TaskRaises(lookup: Lookup, historyRaises: bool, stream: AiGateway.StreamReply, savedId: Option<int>) {
    lookup.LookupRaises? || (Generates(lookup) && (historyRaises || stream.fails || savedId.None?))
  }

  /** A failing reply job broadcasts exactly one error event, as its last event, and
      saves nothing; a reply job that does not fail broadcasts none. */
  lemma {:induction false} ErrorEventIsLastAndOnly(sid: string, lookup: Lookup, historyRaises: bool, stream: AiGateway.StreamReply, savedId: Option<int>)
    ensures var r := ProcessAiResponse(sid, lookup, historyRaises, stream, savedId);
            TaskRaises(lookup, historyRaises, stream, savedId) ==>
              |r.events| >= 1 && r.events[|r.events| - 1] == ErrorEvent(sid) &&
              ErrorEvent(sid) !in r.events[..|r.events| - 1] && r.saved.None?
    ensures var r := ProcessAiResponse(sid, lookup, historyRaises, stream, savedId);
            !TaskRaises(lookup, historyRaises, stream, savedId) ==> ErrorEvent(sid) !in r.events
  {
    var r := ProcessAiResponse(sid, lookup, historyRaises, stream, savedId);
    if Generates(lookup) && !historyRaises {
      var evs := StreamEvents(sid, "", stream.chunks);
      assert forall e :: e in evs ==> e.AiStream?;
      var streamed := [Typing(sid, true)] + evs;
      assert ErrorEvent(sid) !in streamed;
      if stream.fails {
        assert r.events[..|r.events| - 1] == streamed;
      } else if savedId.None? {
        assert r.events[..|r.events| - 1] == streamed + [Typing(sid, false)];
      } else {
        assert r.events == streamed + [Typing(sid, false), r.events[|r.events| - 2], r.events[|r.events| - 1]];
      }
    }
  }

  /** Every `full_content` the stream events carry is a prefix of the next
      one's, and the last one is the reply that is stored and announced when
      the stream was not empty. */
  lemma {:induction false} FullContentGrows(sid: string, chunks: seq<string>, i: nat, j: nat)
    requires i <= j < |chunks|
    ensures var evs := StreamEvents(sid, "", chunks);
            Seqs.IsPrefix(evs[i].fullContent, evs[j].fullContent)
    ensures var evs := StreamEvents(sid, "", chunks);
            Seqs.Concat(chunks) != "" ==> evs[|chunks| - 1].fullContent == FinalText(chunks)
  {
    var part := chunks[..j + 1];
    Seqs.ConcatPrefix(part, i + 1);
    assert part[..i + 1] == chunks[..i + 1];
    assert chunks[..|chunks|] == chunks;
  }

  /** The joined text is empty exactly when every fragment is, and then the
      apology is the reply. */
  lemma {:induction false} EmptyStreamApologises(chunks: seq<string>)
    ensures Seqs.Concat(chunks) == "" <==> forall i :: 0 <= i < |chunks| ==> chunks[i] == ""
    ensures (forall i :: 0 <= i < |chunks| ==> chunks[i] == "") ==> FinalText(chunks) == APOLOGY
  {
    if |chunks| > 0 {
      EmptyStreamApologises(chunks[1..]);
      assert forall i :: 1 <= i < |chunks| ==> chunks[i] == chunks[1..][i - 1];
    }
  }

  // ----- conversation resolution in send_message -----

  datatype SendError = CannotDetermineConversation | SendFailed

  /** Python truthiness of an optional integer id. */
  predicate Truthy(id: Option<int>) {
    id.Some? && id.value != 0
  }

  /** `send_message` settles the conversation id: the message's own when it has
      one; otherwise, with a session, that session's conversation, or a new one
      created for it (`created` is that id, `None` when creation raises).
      `sessionConversation` is `None` when the session or its conversation is
      missing. */
  function ResolveConversation(conversationId: Option<int>, sessionId: string, sessionConversation: Option<int>, created: Option<int>): (r: Result<int, SendError>)
    ensures r.Ok? ==> r.value != 0
    ensures Truthy(conversationId) ==> r == Ok(conversationId.value)
    ensures !Truthy(conversationId) && sessionId == "" ==> r == Err(CannotDetermineConversation)
    ensures !Truthy(conversationId) && sessionId != "" && Truthy(sessionConversation) ==> r == Ok(sessionConversation.value)
    ensures !Truthy(conversationId) && sessionId != "" && !Truthy(sessionConversation) ==>
              r == (if created.None? then Err(SendFailed) else if created.value == 0 then Err(CannotDetermineConversation) else Ok(created.value))
  {
    if Truthy(conversationId) then Ok(conversationId.value)
    else if sessionId == "" then Err(CannotDetermineConversation)
    else if Truthy(sessionConversation) then Ok(sessionConversation.value)
    else match created
      case None => Err(SendFailed)
      case Some(c) => if c != 0 then Ok(c) else Err(CannotDetermineConversation)
  }
}
