/** The text-message handler `handle_message` (bot.py:232-262): optional
    web-page context, the exchange with the completion service, and the
    reply sent back as one or more chat messages.

    The chat transport is reduced to the list of texts the handler sends,
    in order; the regular-expression URL extractor, the page analysis and
    the completion service are given as functions. */
module Handlers {
  import opened Turns
  import opened ConversationStore
  import opened Prompt
  import opened Chunking
  import opened Routing

  /** The interim notice sent before a page is analysed. */
  const ANALYZING_NOTICE: string := "🔍 Анализирую сайт..."

  /** Sends a reply: a long one as its slices, one message per slice in
      order, a short one as it is. What is sent reads back as the reply, and
      no message exceeds the limit. */
  method SendReply(aiResponse: string) returns (sent: seq<string>)
    ensures sent == ReplyParts(aiResponse)
    ensures Concat(sent) == aiResponse
    ensures forall k :: 0 <= k < |sent| ==> |sent[k]| <= MAX_MESSAGE_LENGTH
  {
    if |aiResponse| > MAX_MESSAGE_LENGTH {
      var parts := SlicesFrom(aiResponse, 0);
      sent := [];
      for i := 0 to |parts|
        invariant sent == parts[..i]
      {
        sent := sent + [parts[i]];
      }
    } else {
      sent := [aiResponse];
    }
    ReplyPartsSpec(aiResponse);
  }

  /** `handle_message`: when the text spells out a scheme, the notice is sent
      and the first extracted URL, if any, is analysed into the context; the
      exchange then runs whatever the enrichment gave, and its reply is
      sent. */
  method HandleMessage(store: Store, userId: int, userMessage: string,
                       findUrls: string -> seq<string>, analyzeWebsite: string -> string,
                       complete: seq<Turn> -> Completion) returns (sent: seq<string>)
    modifies store
    ensures var contextInfo := ContextInfo(userMessage, findUrls, analyzeWebsite);
      var r := Respond(old(store.conversations), userId, userMessage, contextInfo, complete);
      store.conversations == r.conversations &&
      sent == (if HasUrlScheme(userMessage) then [ANALYZING_NOTICE] else []) + ReplyParts(r.reply)
    ensures old(store.Valid()) ==> store.Valid()
  {
    sent := [];
    var contextInfo := "";
    if HasUrlScheme(userMessage) {
      sent := sent + [ANALYZING_NOTICE];
      var urls := findUrls(userMessage);
      if |urls| > 0 {
        var websiteData := analyzeWebsite(urls[0]);
        contextInfo := SITE_HEADER + websiteData + "\n\n";
      }
    }
    var aiResponse := GetAiResponse(store, userId, userMessage, contextInfo, complete);
    var parts := SendReply(aiResponse);
    sent := sent + parts;
  }
}
