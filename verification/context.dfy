/** The chat handler: the context it sends to the language model (a fixed
    system message, the recent turns replayed as user/assistant pairs, then
    the new message), and the turn it records afterwards. */
module Context {
  import opened Seqs
  import opened Outcomes
  import opened ChatLog

  datatype Role = SystemRole | UserRole | AssistantRole

  /** One role-tagged entry of the model context. */
  datatype Message = Message(role: Role, content: string)

  const SYSTEM_PROMPT: string :=
    "You are a friendly, concise AI shopping assistant that remembers the user's preferences and recommends products accordingly.answer in moderate short length."

  const DATABASE_ERROR: string := "Database error"

  function SystemMessage(): Message {
    Message(SystemRole, SYSTEM_PROMPT)
  }

  /** Each turn replayed as its user message followed by its assistant response. */
  function Replay(window: seq<Turn>): (r: seq<Message>)
    ensures |r| == 2 * |window|
    ensures forall i :: 0 <= i < |window| ==>
              r[2 * i] == Message(UserRole, window[i].message) &&
              r[2 * i + 1] == Message(AssistantRole, window[i].response)
  {
    if |window| == 0 then []
    else
      var init := Replay(window[..|window| - 1]);
      var t := window[|window| - 1];
      assert forall i :: 0 <= i < |window| - 1 ==> window[i] == window[..|window| - 1][i];
      init + [Message(UserRole, t.message), Message(AssistantRole, t.response)]
  }

  /** The context sent to the model for a given window of turns. */
  function BuildContext(window: seq<Turn>, userMsg: string): (r: seq<Message>)
    ensures |r| == 2 + 2 * |window|
    ensures r[0] == SystemMessage()
    ensures r[|r| - 1] == Message(UserRole, userMsg)
    ensures forall i :: 0 <= i < |window| ==>
              r[1 + 2 * i] == Message(UserRole, window[i].message) &&
              r[2 + 2 * i] == Message(AssistantRole, window[i].response)
  {
    [SystemMessage()] + Replay(window) + [Message(UserRole, userMsg)]
  }

  /** The message is the user message or the model response of a stored turn
      of the given chat and user. */
  predicate FromSession(log: seq<Turn>, chatId: int, userId: int, m: Message) {
    exists t :: t in log && t.chatId == chatId && t.userId == userId &&
      (m == Message(UserRole, t.message) || m == Message(AssistantRole, t.response))
  }

  /** The context the chat handler builds from the stored log. */
  function ChatContext(log: seq<Turn>, chatId: int, userId: int, userMsg: string): (r: seq<Message>)
    ensures |r| == 2 + 2 * |RecentTurns(log, chatId, userId)|
    ensures r[0] == SystemMessage() && r[|r| - 1] == Message(UserRole, userMsg)
  {
    BuildContext(RecentTurns(log, chatId, userId), userMsg)
  }

  /** Shape of the context: its length is 2 + 2 * min(n, MAX_HISTORY) for the n
      stored turns of the session, it opens with the system message, closes
      with the new user message, and everything in between comes from a turn
      of this very chat and user. */
  lemma ChatContextShape(log: seq<Turn>, chatId: int, userId: int, userMsg: string)
    ensures var r := ChatContext(log, chatId, userId, userMsg);
            && |r| == 2 + 2 * Min(|Select(log, BySession(chatId, userId))|, MAX_HISTORY)
            && r[0] == SystemMessage()
            && r[|r| - 1] == Message(UserRole, userMsg)
            && forall i :: 0 < i < |r| - 1 ==> FromSession(log, chatId, userId, r[i])
  {
    RecentTurnsFromSession(log, chatId, userId);
    InnerEntriesFromWindow(log, RecentTurns(log, chatId, userId), chatId, userId, userMsg);
  }

  /** When every turn of the window belongs to the session, so does every
      replayed entry of the context built from it. */
  lemma InnerEntriesFromWindow(log: seq<Turn>, w: seq<Turn>, chatId: int, userId: int, userMsg: string)
    requires forall t :: t in w ==> t in log && t.chatId == chatId && t.userId == userId
    ensures var r := BuildContext(w, userMsg);
            forall i :: 0 < i < |r| - 1 ==> FromSession(log, chatId, userId, r[i])
  {
    var r := BuildContext(w, userMsg);
    forall i | 0 < i < |r| - 1
      ensures FromSession(log, chatId, userId, r[i])
    {
      var k := ReplayedTurnIndex(w, userMsg, i);
      assert w[k] in w;
    }
  }

  /** Every entry strictly between the first and the last of a context is the
      message or the response of some turn of the window. */
  lemma ReplayedTurnIndex(w: seq<Turn>, userMsg: string, i: int) returns (k: nat)
    requires 0 < i < 1 + 2 * |w|
    ensures k < |w|
    ensures var r := BuildContext(w, userMsg);
            r[i] == Message(UserRole, w[k].message) || r[i] == Message(AssistantRole, w[k].response)
  {
    k := (i - 1) / 2;
    assert i == 1 + 2 * k || i == 2 + 2 * k;
  }

  /** Outcome of one chat request: the log after it and the response or error. */
  datatype Exchange = Exchange(log: seq<Turn>, result: Result<string>)

  /** The chat handler for an already authorised user. `generate` is the
      external model; `committed` is whether the database accepted the write. */
  function ChatMessage(log: seq<Turn>, chatId: int, userId: int, userMsg: string,
                       generate: seq<Message> -> string, committed: bool): (r: Exchange)
    ensures r.result.Ok? <==> committed
    ensures committed ==> |r.log| == |log| + 1 && r.log[..|log|] == log
    ensures committed ==> var t := r.log[|log|];
              && t.chatId == chatId && t.userId == userId && t.message == userMsg
              && t.response == r.result.value
              && r.result.value == generate(ChatContext(log, chatId, userId, userMsg))
    ensures !committed ==> r.log == log && r.result == Err(Failure(INTERNAL_SERVER_ERROR, DATABASE_ERROR))
    ensures WellOrdered(log) ==> WellOrdered(r.log)
  {
    var messages := ChatContext(log, chatId, userId, userMsg);
    var botReply := generate(messages);
    if committed then
      Exchange(Insert(log, chatId, userId, userMsg, botReply), Ok(botReply))
    else
      Exchange(log, Err(Failure(INTERNAL_SERVER_ERROR, DATABASE_ERROR)))
  }

  /** After a successful request the next window of that session slides: it
      is the previous window plus the new turn, trimmed to MAX_HISTORY. Other
      sessions' windows do not change. */
  lemma ChatMessageSlidesWindow(log: seq<Turn>, chatId: int, userId: int, userMsg: string,
                                generate: seq<Message> -> string, c: int, u: int)
    ensures var r := ChatMessage(log, chatId, userId, userMsg, generate, true);
            var t := r.log[|log|];
            if c == chatId && u == userId then
              RecentTurns(r.log, c, u) == Last(RecentTurns(log, c, u) + [t], MAX_HISTORY)
            else
              RecentTurns(r.log, c, u) == RecentTurns(log, c, u)
  {
    var r := ChatMessage(log, chatId, userId, userMsg, generate, true);
    var t := r.log[|log|];
    assert r.log == log + [t];
    var m := Select(log, BySession(c, u));
    SelectSnoc(log, t, BySession(c, u));
    ReverseTakeReverse(m, MAX_HISTORY);
    ReverseTakeReverse(Select(r.log, BySession(c, u)), MAX_HISTORY);
    if c == chatId && u == userId {
      LastOfSnoc(m, t, MAX_HISTORY);
    }
  }

  /** A new conversation: the first request sends only the system message and
      the new message; once it is recorded, the second request sends the system
      message, the first exchange, and the second message, in that order. */
  lemma NewConversation(log: seq<Turn>, chatId: int, userId: int, first: string, second: string,
                        generate: seq<Message> -> string)
    requires Select(log, BySession(chatId, userId)) == []
    ensures ChatContext(log, chatId, userId, first) == [SystemMessage(), Message(UserRole, first)]
    ensures var r := ChatMessage(log, chatId, userId, first, generate, true);
            ChatContext(r.log, chatId, userId, second) ==
              [SystemMessage(), Message(UserRole, first), Message(AssistantRole, r.result.value), Message(UserRole, second)]
  {
    var r := ChatMessage(log, chatId, userId, first, generate, true);
    var t := r.log[|log|];
    assert RecentTurns(log, chatId, userId) == [];
    ContextOfNoTurns(first);
    ChatMessageSlidesWindow(log, chatId, userId, first, generate, chatId, userId);
    assert RecentTurns(r.log, chatId, userId) == Last([t], MAX_HISTORY);
    assert Last([t], MAX_HISTORY) == [t];
    ContextOfOneTurn(t, second);
  }

  /** The context built from no turns. */
  lemma ContextOfNoTurns(userMsg: string)
    ensures BuildContext([], userMsg) == [SystemMessage(), Message(UserRole, userMsg)]
  {
  }

  /** The context built from a single turn. */
  lemma ContextOfOneTurn(t: Turn, userMsg: string)
    ensures BuildContext([t], userMsg) ==
            [SystemMessage(), Message(UserRole, t.message), Message(AssistantRole, t.response), Message(UserRole, userMsg)]
  {
  }
}
