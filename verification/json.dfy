/** The dictionaries the bot passes between its stages: string keys mapped to
    either a string or Python's `None`. */
module Json {

  datatype Value = Str(s: string) | Null

  /** The placeholder the fetcher stores for a missing field. */
  const NotAvailable := "N/A"

  const ThemeKey := "theme"
  const QueryKey := "query"
  const LangKey := "lang"
  const TitleKey := "title"
  const DescriptionKey := "description"
  const UrlKey := "url"
  const SourceKey := "source"
  const PublishedAtKey := "publishedAt"
  const ImageKey := "image"

  type Dict = map<string, Value>

  /** Python truthiness of a dictionary value: a non-empty string. */
  predicate Truthy(v: Value) {
    v.Str? && v.s != ""
  }

  /** `d.get(key, default)`. */
  function Get(d: Dict, key: string, default: Value): Value {
    if key in d then d[key] else default
  }
}
