/** `Translator`: the guard and fallback rules around the remote translation
    request, and the per-article construction of `title_uk`/`description_uk`.
    The remote endpoint itself is an uninterpreted `Service`. */
module Translator {
  import opened Json

  /** Both the language the guard skips and the request's target language. */
  const Ukrainian := "uk"
  /** The source language used when an article carries no `lang` key. */
  const AutoDetect := "auto"

  const TitleUkKey := "title_uk"
  const DescriptionUkKey := "description_uk"

  /** What one request to the translation endpoint yields. `Raised` stands for
      every exception the request can end in (network error, timeout, malformed
      JSON, a segment without a first element). `Segments` lists the first
      element of each segment of the response's first entry, with `""` for a
      null or empty one; an empty or missing first entry is `Segments([])`. */
  datatype Reply = Raised | Segments(parts: seq<string>)

  /** The endpoint, as a function of the text and the `sl` request parameter. */
  type Service = (string, string) -> Reply

  /** The `sl` parameter a source language becomes once URL-encoded: Python
      renders `None` as the text "None". */
  function LangParam(lang: Value): string {
    match lang
    case Str(s) => s
    case Null => "None"
  }

  /** Concatenation of the non-empty segment texts. */
  function Join(parts: seq<string>): string {
    if parts == [] then "" else Join(parts[..|parts| - 1]) + parts[|parts| - 1]
  }

  /** The texts the guard passes through without consulting the service. */
  predicate Skipped(text: string, sourceLang: Value) {
    sourceLang == Str(Ukrainian) || text == "" || text == NotAvailable
  }

  /** `translate_to_ukrainian`: a guarded text, a failed request and an empty
      reply give the input back; a non-empty reply gives its joined segments. */
  function TranslateToUkrainian(text: string, sourceLang: Value, service: Service): (r: string)
    ensures Skipped(text, sourceLang) ==> r == text
    ensures !Skipped(text, sourceLang) && service(text, LangParam(sourceLang)) in {Raised, Segments([])} ==>
              r == text
    ensures var reply := service(text, LangParam(sourceLang));
            !Skipped(text, sourceLang) && reply.Segments? && reply.parts != [] ==> r == Join(reply.parts)
  {
    if Skipped(text, sourceLang) then text
    else
      match service(text, LangParam(sourceLang))
      case Raised => text
      case Segments(parts) => if parts == [] then text else Join(parts)
  }

  /** The rule shared by `title_uk` and `description_uk`: translate the field
      when it is a non-empty string other than the placeholder; otherwise copy
      it, or use "" when the key is absent. */
  function Localize(article: Dict, field: string, service: Service): (r: Value)
    ensures field !in article ==> r == Str("")
    ensures field in article && (!Truthy(article[field]) || article[field] == Str(NotAvailable)) ==>
              r == article[field]
    ensures field in article && Truthy(article[field]) && article[field] != Str(NotAvailable) ==>
              r == Str(TranslateToUkrainian(article[field].s, Get(article, LangKey, Str(AutoDetect)), service))
  {
    var v := Get(article, field, Null);
    if Truthy(v) && v != Str(NotAvailable) then
      Str(TranslateToUkrainian(v.s, Get(article, LangKey, Str(AutoDetect)), service))
    else
      Get(article, field, Str(""))
  }

  /** `translate_article`: a copy of the article with `title_uk` and
      `description_uk` added; every other key keeps its value. */
  function TranslateArticle(article: Dict, service: Service): (r: Dict)
    ensures r.Keys == article.Keys + {TitleUkKey, DescriptionUkKey}
    ensures forall k :: k in article && k != TitleUkKey && k != DescriptionUkKey ==> r[k] == article[k]
    ensures r[TitleUkKey] == Localize(article, TitleKey, service)
    ensures r[DescriptionUkKey] == Localize(article, DescriptionKey, service)
  {
    article[TitleUkKey := Localize(article, TitleKey, service)]
           [DescriptionUkKey := Localize(article, DescriptionKey, service)]
  }

  /** A service that fails on every request. */
  ghost predicate Unavailable(service: Service) {
    forall text, lang :: service(text, lang) == Raised
  }

  /** With the service down, or for an article tagged Ukrainian, translation
      only copies: `title_uk` is the title and `description_uk` the
      description, each "" when absent. */
  lemma UntranslatedArticleCopiesFields(article: Dict, service: Service)
    requires Unavailable(service) || Get(article, LangKey, Str(AutoDetect)) == Str(Ukrainian)
    ensures TranslateArticle(article, service)[TitleUkKey] == Get(article, TitleKey, Str(""))
    ensures TranslateArticle(article, service)[DescriptionUkKey] == Get(article, DescriptionKey, Str(""))
  {
  }

  /** The guard decides alone: a skipped text comes back the same whatever the
      service would answer. */
  lemma SkippedTextIgnoresService(text: string, sourceLang: Value, s1: Service, s2: Service)
    requires Skipped(text, sourceLang)
    ensures TranslateToUkrainian(text, sourceLang, s1) == TranslateToUkrainian(text, sourceLang, s2) == text
  {
  }
}
