/** Request composition and history commit of `get_ai_response`
    (bot.py:192-230): the fixed system instruction, the newest stored turns
    and the current user turn go to the completion service; only a
    successful completion is recorded in the conversation store.

    The completion service is a black box: the model receives it as a total
    function from the request to a `Completion`. */
module Prompt {
  import opened Turns
  import opened ConversationStore

  /** The fixed system instruction (bot.py:27-38). */
  const SYSTEM_PROMPT: string :=
    "Ты - экспертный ИИ-помощник по digital маркетингу. Твоя задача:\n" +
    "\n" +
    "1. Анализировать маркетинговые материалы, тексты, изображения и веб-сайты\n" +
    "2. Находить болевые точки в маркетинговых стратегиях\n" +
    "3. Предлагать конкретные, практические решения\n" +
    "4. Давать креативные идеи для продвижения\n" +
    "5. Помогать с копирайтингом, контент-стратегией, SMM, SEO, email-маркетингом\n" +
    "\n" +
    "Отвечай профессионально, но понятно. Давай структурированные ответы с конкретными шагами действий.\n" +
    "Всегда фокусируйся на решении бизнес-задач и увеличении конверсии.\n" +
    "\n" +
    "Отвечай на русском языке."

  /** How many stored turns a request carries (`history[-10:]`). */
  const REQUEST_WINDOW: nat := 10

  /** Put between the context and the user's own words. */
  const CONTEXT_SEPARATOR: string := "\n\nЗапрос пользователя: "

  /** The reply given when the completion call fails. */
  const APOLOGY_PREFIX: string := "Извините, произошла ошибка: "

  /** What the completion service gives back: the generated text, or the
      text of the exception it raised. */
  datatype Completion = Success(text: string) | Failure(message: string)

  /** The result of one exchange: the new table and the text returned to
      the caller. */
  datatype Exchange = Exchange(conversations: Conversations, reply: string)

  /** The content of the current user turn: the raw message, or, when there
      is context, the context, the separator and the raw message. The raw
      message can always be read back from its end. */
  function CurrentMessage(userMessage: string, contextInfo: string): (r: string)
    ensures |userMessage| <= |r| && r[|r| - |userMessage|..] == userMessage
    ensures contextInfo == "" ==> r == userMessage
    ensures contextInfo != "" ==>
              |r| == |contextInfo| + |CONTEXT_SEPARATOR| + |userMessage| &&
              r[..|contextInfo|] == contextInfo &&
              r[|contextInfo|..|contextInfo| + |CONTEXT_SEPARATOR|] == CONTEXT_SEPARATOR
  {
    if contextInfo == "" then userMessage
    else contextInfo + CONTEXT_SEPARATOR + userMessage
  }

  /** The message list sent to the completion service: the system turn, the
      newest `REQUEST_WINDOW` stored turns in their stored order, then one
      user turn. */
  function ComposeMessages(history: seq<Turn>, userMessage: string, contextInfo: string): (r: seq<Turn>)
    ensures |r| == 1 + Min(REQUEST_WINDOW, |history|) + 1
    ensures r[0] == Turn(ROLE_SYSTEM, SYSTEM_PROMPT)
    ensures r[|r| - 1] == Turn(ROLE_USER, CurrentMessage(userMessage, contextInfo))
    ensures r[1..|r| - 1] == history[|history| - (|r| - 2)..]
  {
    var window := Newest(history, REQUEST_WINDOW);
    NewestIsSuffix(history, REQUEST_WINDOW);
    var r := [Turn(ROLE_SYSTEM, SYSTEM_PROMPT)] + window + [Turn(ROLE_USER, CurrentMessage(userMessage, contextInfo))];
    assert r[1..|r| - 1] == window;
    r
  }

  /** One exchange as a function of the table before it. The history is
      read first, which creates an empty entry for an unseen user whatever
      happens next; on success the raw message and then the reply are
      appended; on failure nothing is appended. */
  function Respond(m: Conversations, u: int, userMessage: string, contextInfo: string,
                   complete: seq<Turn> -> Completion): Exchange
  {
    var touched := Touched(m, u);
    var request := ComposeMessages(Lookup(m, u), userMessage, contextInfo);
    match complete(request)
    case Success(text) =>
      var withUser := WithTurn(m, u, Turn(ROLE_USER, userMessage));
      Exchange(WithTurn(withUser, u, Turn(ROLE_ASSISTANT, text)), text)
    case Failure(message) =>
      Exchange(touched, APOLOGY_PREFIX + message)
  }

  /** On success the reply is the generated text, and exactly two turns are
      added to the user's history, in order: the raw message (never the
      context-enriched one) and the reply. The turns kept from before are
      the newest ones, in order. Other users' histories are the subject of
      `RespondReadsSameElsewhere`. */
  lemma SuccessCommitsExchange(m: Conversations, u: int, userMessage: string, contextInfo: string,
                               complete: seq<Turn> -> Completion)
    requires complete(ComposeMessages(Lookup(m, u), userMessage, contextInfo)).Success?
    ensures var text := complete(ComposeMessages(Lookup(m, u), userMessage, contextInfo)).text;
      var r := Respond(m, u, userMessage, contextInfo, complete);
      var h, h' := Lookup(m, u), Lookup(r.conversations, u);
      r.reply == text &&
      |h'| == Min(MAX_HISTORY, |h| + 2) &&
      h' == h[|h| - (|h'| - 2)..] + [Turn(ROLE_USER, userMessage), Turn(ROLE_ASSISTANT, text)]
  {
    var request := ComposeMessages(Lookup(m, u), userMessage, contextInfo);
    var text := complete(request).text;
    var a, b := Turn(ROLE_USER, userMessage), Turn(ROLE_ASSISTANT, text);
    var withUser := WithTurn(m, u, a);
    var h := Lookup(m, u);
    assert Respond(m, u, userMessage, contextInfo, complete) == Exchange(WithTurn(withUser, u, b), text);
    assert Lookup(withUser, u) == Appended(h, a);
    assert Lookup(WithTurn(withUser, u, b), u) == Appended(Appended(h, a), b);
    AppendedTwice(h, a, b);
    var h' := Lookup(Respond(m, u, userMessage, contextInfo, complete).conversations, u);
    assert h' == Appended(Appended(h, a), b);
    assert |h'| == Min(MAX_HISTORY, |h| + 2);
    assert h' == h[|h| - (|h'| - 2)..] + [a, b];
  }

  /** Whatever the outcome, an exchange leaves every other user's history
      as it was. */
  lemma RespondReadsSameElsewhere(m: Conversations, u: int, userMessage: string, contextInfo: string,
                                  complete: seq<Turn> -> Completion, v: int)
    requires v != u
    ensures Lookup(Respond(m, u, userMessage, contextInfo, complete).conversations, v) == Lookup(m, v)
  {
    var request := ComposeMessages(Lookup(m, u), userMessage, contextInfo);
    TouchedReadsSame(m, u, v);
    match complete(request)
    case Success(text) =>
      var withUser := WithTurn(m, u, Turn(ROLE_USER, userMessage));
      WithTurnReadsSameElsewhere(m, u, Turn(ROLE_USER, userMessage), v);
      WithTurnReadsSameElsewhere(withUser, u, Turn(ROLE_ASSISTANT, text), v);
    case Failure(_) =>
  }

  /** On failure the reply is the apology followed by the error text, and
      no history changes: the table differs at most by the empty entry the
      initial read created. */
  lemma FailureCommitsNothing(m: Conversations, u: int, userMessage: string, contextInfo: string,
                              complete: seq<Turn> -> Completion, v: int)
    requires complete(ComposeMessages(Lookup(m, u), userMessage, contextInfo)).Failure?
    ensures var r := Respond(m, u, userMessage, contextInfo, complete);
      r.reply == APOLOGY_PREFIX + complete(ComposeMessages(Lookup(m, u), userMessage, contextInfo)).message &&
      r.conversations == Touched(m, u) &&
      Lookup(r.conversations, v) == Lookup(m, v)
  {
    TouchedReadsSame(m, u, v);
  }

  /** An exchange keeps every history within the bound. */
  lemma RespondPreservesBound(m: Conversations, u: int, userMessage: string, contextInfo: string,
                              complete: seq<Turn> -> Completion)
    requires AllBounded(m)
    ensures AllBounded(Respond(m, u, userMessage, contextInfo, complete).conversations)
  {
    assert AllBounded(Touched(m, u));
    WithTurnPreservesBound(m, u, Turn(ROLE_USER, userMessage));
    var request := ComposeMessages(Lookup(m, u), userMessage, contextInfo);
    if complete(request).Success? {
      WithTurnPreservesBound(WithTurn(m, u, Turn(ROLE_USER, userMessage)), u,
                             Turn(ROLE_ASSISTANT, complete(request).text));
    }
  }

  /** `get_ai_response`: reads the history, builds the request step by step,
      asks the completion service, and on success records the raw message
      and the reply. */
  method GetAiResponse(store: Store, userId: int, userMessage: string, contextInfo: string,
                       complete: seq<Turn> -> Completion) returns (reply: string)
    modifies store
    ensures var r := Respond(old(store.conversations), userId, userMessage, contextInfo, complete);
      store.conversations == r.conversations && reply == r.reply
    ensures old(store.Valid()) ==> store.Valid()
  {
    ghost var before := store.conversations;
    var history := store.GetUserHistory(userId);
    var messages := [Turn(ROLE_SYSTEM, SYSTEM_PROMPT)];
    messages := messages + Newest(history, REQUEST_WINDOW);
    var currentMessage := userMessage;
    if contextInfo != "" {
      currentMessage := contextInfo + CONTEXT_SEPARATOR + userMessage;
    }
    messages := messages + [Turn(ROLE_USER, currentMessage)];
    assert messages == ComposeMessages(history, userMessage, contextInfo);
    var outcome := complete(messages);
    match outcome {
      case Success(aiResponse) =>
        WithTurnAfterTouched(before, userId, Turn(ROLE_USER, userMessage));
        store.AddToHistory(userId, ROLE_USER, userMessage);
        store.AddToHistory(userId, ROLE_ASSISTANT, aiResponse);
        reply := aiResponse;
      case Failure(message) =>
        reply := APOLOGY_PREFIX + message;
    }
    if AllBounded(before) {
      RespondPreservesBound(before, userId, userMessage, contextInfo, complete);
    }
  }
}
