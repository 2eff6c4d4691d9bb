# News monitor bot — a Dafny model of its sequential core

The bot (`news_bot.py`) searches a news API for a fixed list of fourteen
finance queries, drops every article whose URL it has already handed out,
translates titles and descriptions to Ukrainian, and posts the result to one
Telegram chat as a batch. It repeats this on a fixed cadence and clears its
URL cache every `24 * (60 // interval_minutes)` iterations.

The model keeps the four pieces of that file that are pure logic once the
network is taken away:

- **URL de-duplication** (`NewsFetcher`). `get_recent_news` runs over one
  search response per query. A response is `None` when the request failed and
  otherwise holds the articles. `Kept` is an independent, declarative
  definition of the filter: a candidate is kept exactly when its URL is neither
  in the starting cache nor the URL of an earlier candidate. The loop methods
  are proved to compute it. The lemmas then establish that the filter hands out
  fresh and pairwise distinct URLs, keeps the API's order, misses no new URL,
  composes across queries and calls, and is reset by `clear_processed_cache`.
- **Batch accounting** (`TelegramBot`). `send_articles_batch` gets the outcome
  of each `send_message` call as an input. The messages sent and the count
  returned are fully determined by it.
- **Translation fallbacks** (`Translator`). The translation endpoint is an
  uninterpreted `Service`. It can fail, and it can return an empty segment
  list. The guard, the fallbacks and the per-field rule of `translate_article`
  are stated over it.
- **Bot orchestration** (`MonitorBot`). This covers one news check with its
  per-article translation fallback and one pass of the `run_continuous` loop.
  It includes the cache-reset arithmetic, using Python's floor division and
  modulo. The arithmetic raises `ZeroDivisionError` for an interval of 0 and
  for any interval longer than 60 minutes.

Files: `wrappers.dfy` (`Option`, `Result`), `json.dfy` (dictionary values
and keys), `seqs.dfy` (concatenation of batches, subsequences),
`translator.dfy`, `news_fetcher.dfy`, `telegram_bot.dfy`, `monitor_bot.dfy`.

Inputs that stand in for the outside world:

- The search API becomes `responses: seq<Response>`, one entry per query.
- The translation endpoint becomes `service: (text, sl) -> Reply`.
- Telegram becomes `delivered: nat -> bool`: whether the n-th send of the batch
  succeeds.
- A translation that raises inside `check_and_send_news` becomes
  `raised: nat -> bool`.

The bot sends to a single fixed chat and keeps only an in-memory set of URLs.

## Model

| member | source | states |
|---|---|---|
| `NewsFetcher.GetRecentNews` | news_bot.py:149-188 | The returned articles are exactly the reference filter's output over all responses, in query order. The cache grows to old cache ∪ every URL received. No returned URL was cached on entry. Every returned URL is cached afterwards. No two returned articles share a URL. |
| `NewsFetcher.InfosFresh` | news_bot.py:167-183 | Every returned dictionary carries its article's URL. That URL was not cached on entry and is cached afterwards, and no two dictionaries share one. |
| `NewsFetcher.Tag` | news_bot.py:158-166 | A successful response contributes all of its articles, in the API's order, each paired with the query that found it. |
| `NewsFetcher.FilterAll` | news_bot.py:158-185 | The outer loop over the per-query batches computes the reference filter of their concatenation. It adds every candidate's URL to the cache. |
| `NewsFetcher.FilterBatch` | news_bot.py:166-183 | The inner loop drops an article whose URL is already in the set. Otherwise it records the URL and appends the article dictionary. The result agrees with the reference filter extended by that batch. |
| `NewsFetcher.KeptUrls` | news_bot.py:166-171 | The URLs handed out are exactly the URLs received minus those already cached. |
| `NewsFetcher.KeptDistinct` | news_bot.py:167-171 | Within one call, the returned articles have pairwise distinct URLs, also across different queries. |
| `NewsFetcher.KeptInOrder` | news_bot.py:158-183 | The output is a subsequence of the candidates listed in query order and then API order. |
| `NewsFetcher.KeptFirstOccurrences` | news_bot.py:166-183 | Every candidate whose URL is neither cached nor seen earlier in the call is handed out. |
| `NewsFetcher.KeptAppend` | news_bot.py:158-171 | Filtering a concatenation equals filtering the first part, then filtering the second part against the cache the first left behind. This holds across queries and across successive calls. |
| `NewsFetcher.NoRepeatsAcrossCalls` | news_bot.py:167-171 | Without a cache reset in between, a second call hands out no URL that the first call handed out. |
| `NewsFetcher.AtMostOneWithoutUrl` | news_bot.py:167-169 | A missing URL counts as "". So at most one URL-less article gets through per cache lifetime, and none once "" is cached. |
| `NewsFetcher.FailedQueryIsNoOp` | news_bot.py:163-165 | A query with no response, or with an empty article list, contributes no candidates. The call then receives exactly what it would receive had the query been left out, so the query adds no articles and no URLs. |
| `NewsFetcher.ArticleInfo` | news_bot.py:172-182 | The dictionary of a kept article has exactly the nine keys theme, query, lang, title, description, url, source, publishedAt and image. Theme, query and lang come from the query that found it. An absent title, description, source name or publication date becomes "N/A". An absent image becomes `None`. Every value other than the image is a string. |
| `NewsFetcher.ClearProcessedCache` | news_bot.py:190-194 | Clearing leaves the set of processed URLs empty. |
| `NewsFetcher.ClearReadmitsSeenUrl` | news_bot.py:190-194 | The old cache drops an article whose URL it holds. After `clear_processed_cache`, that same article is handed out first. |
| `TelegramBot.DeliveredCount` | news_bot.py:275-277 | The count of successful article sends is at most the batch size. It equals the batch size iff every article send succeeded. It is 0 iff none did. |
| `TelegramBot.SendArticlesBatch` | news_bot.py:265-283 | An empty batch sends nothing and returns 0. Otherwise there are exactly `len + 2` sends: a header with the batch size, one post per article in order, and a summary. The return value is the number of successful article sends, between 0 and `len`. |
| `TelegramBot.ControlSendsDoNotCount` | news_bot.py:272-281 | Header and summary failures do not change the count: two transports that agree on the article sends give the same count. |
| `Translator.TranslateToUkrainian` | news_bot.py:45-71 | The input comes back unchanged in these cases: the source language is "uk", the text is empty, the text is "N/A", or the request raises or yields no segments. In every other case the result is the joined segments of the reply. |
| `Translator.SkippedTextIgnoresService` | news_bot.py:47-48 | A guarded text comes back unchanged whatever the service would answer. |
| `Translator.Localize` | news_bot.py:76-86 | A field that is a non-empty string other than "N/A" is translated, using the article's `lang` and defaulting to "auto". An absent field gives "". Any other field value is copied as is. |
| `Translator.TranslateArticle` | news_bot.py:73-88 | Every original key other than `title_uk` and `description_uk` is kept with its value. `title_uk` and `description_uk` are added, each following the per-field rule. |
| `Translator.UntranslatedArticleCopiesFields` | news_bot.py:73-88 | When the service is down, or the article's `lang` is "uk", `title_uk` equals the title and `description_uk` equals the description. Each is "" when absent. |
| `MonitorBot.TranslateAll` | news_bot.py:329-337 | The translated list has the fetched list's length and order. Each entry is the translated article, or the original one when translating it raised. Either way it keeps every original key, and the value of every key other than `title_uk` and `description_uk`. |
| `MonitorBot.CheckAndSendNews` | news_bot.py:318-342 | The cache is updated as by `get_recent_news`. When no article is new, nothing is sent and 0 is returned. Otherwise one batch of `new + 2` messages goes out: a header, then each fetched article in order, translated or left untouched when translating it raised, then a summary carrying the count. The result counts the successful article sends and never exceeds the number of new articles. |
| `MonitorBot.ResetPeriod` | news_bot.py:384 | `24 * (60 // interval)` fails only for interval 0. It is 0 for intervals above 60 and negative for negative intervals. For intervals 1..60 it is at least 24, and that many intervals span at most one day but more than one day minus 24 intervals. |
| `MonitorBot.ShouldClearCache` | news_bot.py:384 | The reset test raises iff the interval is 0 or above 60. Otherwise it holds exactly on iterations divisible by the period, with Python's modulo. |
| `MonitorBot.FloorDiv` | news_bot.py:384 | Python's `//` rounds toward negative infinity: for a positive divisor `b * q <= a < b * q + b`, for a negative one `b * q + b < a <= b * q`. |
| `MonitorBot.FloorMod` | news_bot.py:384 | Python's `%` completes `//`: `a == b * (a // b) + a % b`, and the remainder lies in `[0, b)` for a positive divisor and in `(b, 0]` for a negative one. |
| `MonitorBot.FloorModZero` | news_bot.py:384 | Python's modulo is zero exactly when the Euclidean one is, also for negative divisors. |
| `MonitorBot.ClearsOncePerPeriod` | news_bot.py:384-385 | For intervals 1..60 the reset test repeats with the period. Among iterations 1..period only the last one clears. At 60 minutes the period is 24. |
| `MonitorBot.RunIteration` | news_bot.py:372-388 | One loop pass runs a news check and then the reset test. It sends exactly the messages of `CheckAndSendNews` and returns its count: nothing when no article is new, otherwise the header, each fetched article (translated, or untouched when translating it raised) in order, and the summary. The test fails iff the interval is 0 or above 60. Otherwise the cache ends empty on iterations divisible by the period and holds the check's URLs on all others. |

## Left out

- Network calls: `search_news`, `send_message`, `test_connection` and the HTTP request inside `translate_to_ukrainian`. They are abstract inputs: a response per query, a success flag per send, and a translation `Service`.
- `format_article_message` and `send_article`: the HTML template and its date reformatting rely on `datetime` library behaviour. An article send is the message `Post(article)`.
- `send_error`, logging, environment and configuration reading (lines 17-35), `main` and its `sys.exit` paths: side effects with nothing to verify.
- `time.sleep` pacing and the `from`/`to` timestamps of the search window (lines 151-153): clock input only passed to the API.
- JSON `null` values in raw API articles: a raw field is either absent or a string. Inside the bot's own dictionaries `None` is modelled (`Value.Null`).
- The outer `except Exception` of `check_and_send_news` (lines 344-351): once responses are typed, nothing in the modelled path raises.
- MonitorBot.TranslateAll: `translate_article` as modelled never raises, so whether it raised is the abstract input `raised`.
- MonitorBot.RunIteration: does not model that `time.sleep` raises for a negative interval after the reset test, which ends the loop. It also does not model `KeyboardInterrupt`, or the error message sent when the reset test raises.
- The loop of `run_continuous` itself (start-up message, unbounded repetition): each pass is `RunIteration` applied to the previous pass's cache.
