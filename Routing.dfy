/** The small routing rules of the bot: the example-prompt buttons
    (bot.py:140-149) and the guard that decides whether a text message is
    enriched with data from a web page (bot.py:241-251).

    The URL regular expression and the page analysis are not interpreted:
    the rules receive them as functions. */
module Routing {

  datatype Option<T> = None | Some(value: T)

  /** The button identifiers and the example text each stands for. */
  const EXAMPLES: map<string, string> := map[
    "example_competitors" := "Проанализируй конкурентов в нише онлайн-образования для предпринимателей. Какие маркетинговые стратегии они используют и как можно выделиться?",
    "example_copy" := "Помоги написать продающий текст для лендинга SaaS-продукта для автоматизации маркетинга в малом бизнесе.",
    "example_ideas" := "Предложи 10 идей для контента в Instagram для бренда экологичной косметики.",
    "example_strategy" := "Создай маркетинговую стратегию запуска нового мобильного приложения для фитнеса с бюджетом $5000."
  ]

  const EXAMPLE_HEADER: string := "📝 Пример запроса:\n\n"
  const EXAMPLE_FOOTER: string := "\n\n💬 Можете скопировать и отправить этот запрос или написать свой!"

  /** `examples.get(data, "")`: the example text of a known button, the
      empty string for any other identifier. */
  function ExampleText(data: string): (r: string)
    ensures r != "" <==> data in EXAMPLES
    ensures data in EXAMPLES ==> r == EXAMPLES[data]
  {
    if data in EXAMPLES then EXAMPLES[data] else ""
  }

  /** The message a button press answers with, if any: a known button gets
      its example wrapped in the fixed header and footer; an unknown one gets
      no message at all. */
  function ButtonReply(data: string): (r: Option<string>)
    ensures r.Some? <==> data in EXAMPLES
    ensures r.Some? ==> r.value == EXAMPLE_HEADER + EXAMPLES[data] + EXAMPLE_FOOTER
  {
    var exampleText := ExampleText(data);
    if exampleText != "" then Some(EXAMPLE_HEADER + exampleText + EXAMPLE_FOOTER) else None
  }

  /** The copywriting button answers with its own example text. */
  lemma CopyButtonReply()
    ensures ButtonReply("example_copy") == Some(EXAMPLE_HEADER +
      "Помоги написать продающий текст для лендинга SaaS-продукта для автоматизации маркетинга в малом бизнесе." +
      EXAMPLE_FOOTER)
  {
  }

  /** Only the four identifiers the start menu offers get an answer. */
  lemma OnlyMenuButtonsAnswer(data: string)
    ensures ButtonReply(data).Some? <==>
      data in {"example_competitors", "example_copy", "example_ideas", "example_strategy"}
  {
  }

  /** `p` occurs in `s` starting at index `i`. */
  predicate OccursAt(s: string, p: string, i: int)
  {
    0 <= i && i + |p| <= |s| && s[i..i + |p|] == p
  }

  /** Python's substring test `p in s`. */
  predicate Contains(s: string, p: string)
    decreases |s|
  {
    (|p| <= |s| && s[..|p|] == p) || (s != [] && Contains(s[1..], p))
  }

  /** Where `Contains` holds, `p` occurs at some index of `s`. */
  lemma {:induction false} ContainsWitness(s: string, p: string)
    requires Contains(s, p)
    ensures exists i :: OccursAt(s, p, i)
    decreases |s|
  {
    if |p| <= |s| && s[..|p|] == p {
      assert OccursAt(s, p, 0);
    } else {
      ContainsWitness(s[1..], p);
      var i :| OccursAt(s[1..], p, i);
      assert s[1..][i..i + |p|] == s[i + 1..i + 1 + |p|];
      assert OccursAt(s, p, i + 1);
    }
  }

  /** An occurrence anywhere in `s` is found by `Contains`. */
  lemma {:induction false} OccurrenceContained(s: string, p: string, i: int)
    requires OccursAt(s, p, i)
    ensures Contains(s, p)
    decreases i
  {
    if i > 0 {
      assert s[1..][i - 1..i - 1 + |p|] == s[i..i + |p|];
      OccurrenceContained(s[1..], p, i - 1);
    } else {
      assert s[..|p|] == s[i..i + |p|];
    }
  }

  /** `Contains` holds exactly when `p` occurs somewhere in `s`. */
  lemma ContainsIff(s: string, p: string)
    ensures Contains(s, p) <==> exists i :: OccursAt(s, p, i)
  {
    if Contains(s, p) {
      ContainsWitness(s, p);
    }
    forall i | OccursAt(s, p, i) ensures Contains(s, p) {
      OccurrenceContained(s, p, i);
    }
  }

  /** The text is looked at for a link only if it spells out a scheme. */
  predicate HasUrlScheme(message: string)
  {
    Contains(message, "http://") || Contains(message, "https://")
  }

  const SITE_HEADER: string := "Данные с сайта:\n"

  /** The context put in front of the user's words: empty unless the text
      spells out a scheme and the extractor finds at least one URL; then the
      analysis of the first URL only, between a fixed header and a blank
      line. */
  function ContextInfo(message: string, findUrls: string -> seq<string>,
                       analyzeWebsite: string -> string): (r: string)
    ensures r != "" <==> HasUrlScheme(message) && |findUrls(message)| > 0
    ensures r != "" ==> r == SITE_HEADER + analyzeWebsite(findUrls(message)[0]) + "\n\n"
  {
    if HasUrlScheme(message) then
      var urls := findUrls(message);
      if |urls| > 0 then SITE_HEADER + analyzeWebsite(urls[0]) + "\n\n" else ""
    else ""
  }

  /** A text without a scheme never gets context, whatever the extractor
      and the analysis would return. */
  lemma NoSchemeNoContext(message: string, findUrls: string -> seq<string>,
                          analyzeWebsite: string -> string)
    requires forall i :: !OccursAt(message, "http://", i) && !OccursAt(message, "https://", i)
    ensures ContextInfo(message, findUrls, analyzeWebsite) == ""
  {
    ContainsIff(message, "http://");
    ContainsIff(message, "https://");
  }
}
