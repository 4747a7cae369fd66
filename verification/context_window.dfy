/** The AI service's bounded conversation context (`manageContext` in the AI
    service's context utilities): append the new turn, keep only the newest
    `maxMessages` entries. */
module ContextWindow {
  import opened Wrappers
  import Seqs

  datatype ChatMessage = ChatMessage(role: string, content: string)

  /** Default bound of `manageContext`. */
  const DEFAULT_MAX_MESSAGES := 10

  function OptionalItem(m: Option<ChatMessage>): seq<ChatMessage> {
    if m.Some? then [m.value] else []
  }

  /** The context before trimming: the current context (`null` read as empty)
      followed by the user message and the AI reply that are present. */
  function Appended(current: Option<seq<ChatMessage>>, user: Option<ChatMessage>, ai: Option<ChatMessage>): seq<ChatMessage> {
    current.GetOr([]) + OptionalItem(user) + OptionalItem(ai)
  }

  /** `manageContext`: a non-positive bound gives the empty context; otherwise
      the newest `maxMessages` entries of the appended context, in order. */
  function ManageContext(current: Option<seq<ChatMessage>>, user: Option<ChatMessage>, ai: Option<ChatMessage>,
                         maxMessages: int): (r: seq<ChatMessage>)
    ensures maxMessages <= 0 ==> r == []
    ensures maxMessages > 0 ==> |r| <= maxMessages
    ensures maxMessages > 0 ==> Seqs.IsSuffix(r, Appended(current, user, ai))
    ensures maxMessages > 0 ==> |r| == if |Appended(current, user, ai)| < maxMessages then |Appended(current, user, ai)| else maxMessages
  {
    if maxMessages <= 0 then []
    else
      var updated := current.GetOr([]) + OptionalItem(user) + OptionalItem(ai);
      if |updated| > maxMessages then updated[|updated| - maxMessages..] else updated
  }

  /** Below the bound nothing is dropped: the result is plain concatenation. */
  lemma BelowCapIsConcatenation(current: Option<seq<ChatMessage>>, user: Option<ChatMessage>, ai: Option<ChatMessage>, maxMessages: int)
    requires maxMessages > 0 && |Appended(current, user, ai)| <= maxMessages
    ensures ManageContext(current, user, ai, maxMessages) == current.GetOr([]) + OptionalItem(user) + OptionalItem(ai)
  {
  }

  /** Missing messages are not appended: with both absent the context is only trimmed. */
  lemma NullMessagesNotAppended(current: seq<ChatMessage>, maxMessages: int)
    requires maxMessages > 0
    ensures ManageContext(Some(current), None, None, maxMessages) == Seqs.LastN(current, maxMessages)
  {
  }

  /** When a new turn overflows the bound, the new user message and the reply are
      the last two entries and the oldest entries are the ones dropped. */
  lemma NewTurnIsKept(current: seq<ChatMessage>, user: ChatMessage, ai: ChatMessage, maxMessages: int)
    requires maxMessages >= 2
    ensures var r := ManageContext(Some(current), Some(user), Some(ai), maxMessages);
      |r| >= 2 && r[|r| - 2] == user && r[|r| - 1] == ai
  {
  }
}
