# Marketing assistant bot: conversation store, request composition, reply chunking

The bot (`bot.py`) answers chat messages by forwarding them to a hosted
language model. Its only logic of its own is modelled here:

- the per-user conversation table `user_conversations`: a map from user id to
  an ordered list of `{role, content}` turns. A list is created empty the first time it is
  read, appending keeps only the newest 20 turns, and clearing empties it
  (`ConversationStore`, over the helpers in `Turns`);
- the request `get_ai_response` sends: the fixed system instruction, the
  newest 10 stored turns, then the current user turn, optionally prefixed by
  web-page context. After a successful completion the raw message and the
  reply are recorded; after a failure nothing is recorded and an apology is
  returned (`Prompt`);
- the splitting of a long reply into consecutive 4000-character messages
  (`Chunking`);
- the example-prompt buttons and the rule that decides whether a message
  gets web-page context (`Routing`);
- the text-message handler that ties these together (`Handlers`).

The conversation table is a class, `ConversationStore.Store`, with a `map`
field that its methods update. Pure functions over the same map
(`Touched`, `WithTurn`, `Cleared`) say exactly what each method does to it.
The lemmas about those functions carry the properties: bounds, order, and
which entries are left alone. The completion service, the URL regular
expression and the page analysis are opaque to this model. Each operation
receives them as function parameters:

- `complete: seq<Turn> -> Completion` returns either `Success(text)` or
  `Failure(message)`;
- `findUrls: string -> seq<string>`;
- `analyzeWebsite: string -> string`.

Strings are `seq<char>` with Unicode scalar values as characters, so
`|s|` counts what Python's `len` counts for the texts this bot handles.

The comment at `bot.py:53` says the history keeps 10 messages. The code
keeps 20 (`bot.py:54-55`), and the model follows the code: `MAX_HISTORY` is
20. The request window of 10 is a separate rule (`bot.py:202`).

Two consequences of the code are worth stating:

- A failed page fetch still produces context: `analyze_website` returns an
  error text (`bot.py:189-190`), which is wrapped like any other analysis
  (`bot.py:251`). So `ContextInfo` is non-empty whenever a URL was
  extracted, whatever the analysis returned.
- A failed completion records no turn, but the read at `bot.py:196` leaves
  an empty entry for an unseen user. Every history still reads the same
  (`Prompt.FailureCommitsNothing`).

## Model

| member | source | states |
|---|---|---|
| `Turns.Newest` | bot.py:54-55 | Python's `s[-n:]`: the result has `min(n, len(s))` elements |
| `Turns.NewestIsSuffix` | bot.py:55 | what `s[-n:]` keeps is the tail of `s`, in order |
| `Turns.NewestAppend` | bot.py:49-55 | truncating, appending and truncating again equals appending and truncating once |
| `ConversationStore.Touched` | bot.py:43-47 | reading an unseen user's history adds an empty entry for that user and nothing else; reading a known user's history leaves the table unchanged; either way the read returns the stored history |
| `ConversationStore.Appended` | bot.py:49-55 | the history an append leaves has `min(20, n + 1)` turns and the new turn is last |
| `ConversationStore.WithTurn` | bot.py:49-55 | after an append, the user's entry is `Appended` of the old history; every other user's entry is unchanged |
| `ConversationStore.Cleared` | bot.py:57-59 | after a clear, the user's history is empty and every other entry is unchanged |
| `ConversationStore.TouchedReadsSame` | bot.py:43-47 | the empty entry created by a read is indistinguishable from a missing one for every later read |
| `ConversationStore.WithTurnPreservesBound` | bot.py:54-55 | the appended-to history has at most 20 turns whatever its earlier length; if every history was within 20 before, every one is after |
| `ConversationStore.ClearedEmpties` | bot.py:57-59 | a clear followed by a read: the read returns the empty history and changes nothing, every other user's history is as it was, and the 20-turn bound still holds |
| `ConversationStore.ClearedIdempotent` | bot.py:57-59 | clearing twice is the same as clearing once |
| `ConversationStore.AppendedKeepsOrder` | bot.py:49-55 | the new history is the newest `min(20, n + 1) - 1` old turns in their old order, then the new turn |
| `ConversationStore.WithTurnAfterTouched` | bot.py:51 | an append does its own read first, so a read just before it makes no difference |
| `ConversationStore.WithTurnReadsSameElsewhere` | bot.py:49-55 | an append changes no other user's history |
| `ConversationStore.AppendedTwice` | bot.py:223-224 | after two appends in a row, the history has `min(20, n + 2)` turns: the newest old turns in order, then both new turns in call order |
| `ConversationStore.AppendedAllKeepsNewest` | bot.py:49-55 | after any non-empty run of appends, the history is the newest 20 of the old history followed by every appended turn |
| `ConversationStore.WithTurnsReadBack` | bot.py:49-55 | a run of appends through the table leaves the user's history as the run of appends on the history itself, and every other user's history as it was |
| `ConversationStore.LongRunKeepsOnlyNewest` | bot.py:54-55 | after 20 or more appends, the history is exactly the last 20 appended turns, in arrival order |
| `ConversationStore.Store.constructor` | bot.py:41 | the table starts empty |
| `ConversationStore.Store.GetUserHistory` | bot.py:43-47 | returns the stored history (empty if none) and changes the table exactly as `Touched` says |
| `ConversationStore.Store.AddToHistory` | bot.py:49-55 | changes the table exactly as `WithTurn` says and keeps the 20-turn bound on every history |
| `ConversationStore.Store.ClearHistory` | bot.py:57-59 | changes the table exactly as `Cleared` says and keeps the bound |
| `Prompt.CurrentMessage` | bot.py:205-207 | the raw message is always the tail of the user turn; with non-empty context, the turn is the context, then the separator `"\n\nЗапрос пользователя: "`, then the message; with empty context, it is the message alone |
| `Prompt.ComposeMessages` | bot.py:199-209 | the request has `1 + min(10, len(history)) + 1` entries: first the system turn with the fixed instruction, last a `user` turn carrying `CurrentMessage`, and in between exactly the newest `min(10, len(history))` stored turns, in order |
| `Prompt.Respond` | bot.py:192-230 | one exchange as a function of the table: read, compose, call, and on success two appends. It has no contract of its own; `SuccessCommitsExchange`, `FailureCommitsNothing`, `RespondReadsSameElsewhere` and `RespondPreservesBound` specify it, and `GetAiResponse` is proved equal to it |
| `Prompt.SuccessCommitsExchange` | bot.py:220-226 | on success, the reply is the generated text. The history gains exactly two turns, in order: `("user", raw message)`, never the enriched one, then `("assistant", reply)`. The older turns kept are the newest ones, in order, and the history has `min(20, n + 2)` turns |
| `Prompt.FailureCommitsNothing` | bot.py:228-230 | on failure, the reply is the apology prefix followed by the error text. The table differs from before only by the read's empty entry, and every history reads as before |
| `Prompt.RespondReadsSameElsewhere` | bot.py:192-230 | whatever the outcome, no other user's history changes |
| `Prompt.RespondPreservesBound` | bot.py:222-224 | an exchange keeps every history within 20 turns |
| `Prompt.GetAiResponse` | bot.py:192-230 | builds the request step by step and calls the service on it. The new table and the returned text are those `Respond` gives, and the store's bound is kept |
| `Chunking.SliceEnd` | bot.py:258 | a slice is at most 4000 long and is cut short only at the end of the text |
| `Chunking.SlicesFrom` | bot.py:258 | the list comprehension of slices. It has no contract of its own; `SlicesFromAt`, `SlicesFromConcat` and `SlicesFromShape` specify it |
| `Chunking.ReplyParts` | bot.py:257-262 | the branch between one message and the slices. It has no contract of its own; `ReplyPartsSpec` specifies it |
| `Chunking.SlicesFromConcat` | bot.py:258 | the slices, read in order, give back the text from the start index on |
| `Chunking.SlicesFromShape` | bot.py:258 | there are `ceil((len - start) / 4000)` slices. None is empty or longer than 4000, and all but the last are exactly 4000 long |
| `Chunking.SlicesFromAt` | bot.py:258 | slice `k` is `s[start + 4000k : start + 4000(k+1)]`, clipped at the end of `s`: the list comprehension, element by element |
| `Chunking.ReplyPartsSpec` | bot.py:257-262 | the sent parts concatenate to the reply, and none is longer than 4000. A reply of at most 4000 characters is sent as one part. A longer reply is sent as `ceil(L / 4000)` parts, all but the last exactly 4000 long |
| `Chunking.ReplyOf9500` | bot.py:257-262 | a 9500-character reply is sent as parts of 4000, 4000 and 1500 characters: its three consecutive slices |
| `Routing.ExampleText` | bot.py:140-147 | the lookup is non-empty exactly for the four known identifiers, and then it is that identifier's example text |
| `Routing.ButtonReply` | bot.py:147-149 | a message is sent exactly for a known identifier: the fixed header, the example text, then the fixed footer. An unknown identifier sends nothing |
| `Routing.CopyButtonReply` | bot.py:142-149 | `"example_copy"` answers with the copywriting example |
| `Routing.OnlyMenuButtonsAnswer` | bot.py:140-149 | exactly the four menu identifiers get an answer |
| `Routing.Contains` | bot.py:242 | Python's substring test `p in s`. It has no contract of its own; `ContainsIff` relates it to the independent `OccursAt` |
| `Routing.HasUrlScheme` | bot.py:242 | the guard: the message contains `"http://"` or `"https://"`. `ContainsIff` reads it as an occurrence of either scheme, and `NoSchemeNoContext` uses that |
| `Routing.ContainsWitness` | bot.py:242 | if the substring test succeeds, there is an index where the pattern occurs |
| `Routing.OccurrenceContained` | bot.py:242 | any occurrence of the pattern makes the substring test succeed |
| `Routing.ContainsIff` | bot.py:242 | the substring test `p in s` holds exactly when `p` occurs at some index of `s` |
| `Routing.ContextInfo` | bot.py:241-251 | the context is non-empty exactly when the message contains `"http://"` or `"https://"` and the extractor returns at least one URL. It is then `"Данные с сайта:\n"`, the analysis of the first URL only, then `"\n\n"` |
| `Routing.NoSchemeNoContext` | bot.py:241-242 | a message in which neither scheme occurs gets empty context, whatever the extractor and the analysis would return |
| `Handlers.SendReply` | bot.py:257-262 | the sent messages are `ReplyParts(reply)`, in order. They concatenate to the reply, and none exceeds 4000 characters |
| `Handlers.HandleMessage` | bot.py:232-262 | the new table and the reply are the exchange run on the message with `ContextInfo` as context. The messages sent are the "analysing" notice (only when a scheme occurs), then the reply's parts in order. The bound is kept |

## Left out

- Chat transport: `start`, `help_command`, `clear_command`, keyboards,
  `query.answer`, the typing indicator, the `Application` set-up and handler
  registration in `main`, and `error_handler`. These are framework
  wrappers; the model reduces what is sent to a list of texts.
- The completion call (`bot.py:212-218`) is a function parameter. Its
  model name, temperature, token limit and nucleus-sampling value are
  constants of the remote call. They do not affect the modelled logic.
  A `None` content in the service's answer is not modelled.
- `analyze_website` (`bot.py:151-190`) does HTTP fetching and HTML parsing
  with library semantics. It is an uninterpreted `string -> string`
  parameter; its own error text is just one of the values it may return.
- The URL regular expression (`bot.py:247`) is an uninterpreted
  `string -> seq<string>` parameter.
- `handle_photo` and `handle_document` (`bot.py:264-327`) download and decode
  files. They only pass fixed prompt templates to `get_ai_response`.
- Asynchronous interleaving: two overlapping exchanges for one user can
  race on the table. The model runs every call to completion, one at a time.
- Environment and configuration loading, logging, and the static welcome
  and help texts.
- `ConversationStore.Store.GetUserHistory` returns the history as a value.
  In the source it returns the stored list object itself, and
  `add_to_history` appends through that alias. The model writes the
  appended list back into the table, which has the same effect for the
  only callers, `add_to_history` and `get_ai_response`.
