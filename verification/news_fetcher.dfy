/** `NewsFetcher`: the URL de-duplication filter of `get_recent_news` and the
    cache reset of `clear_processed_cache`. Each search request is replaced by
    its response, one per configured query. */
module NewsFetcher {
  import opened Wrappers
  import opened Json
  import opened Seqs

  /** One entry of the fetcher's fixed query list. */
  datatype Query = Query(query: string, lang: string, theme: string)

  /** The fourteen queries, in the order they are issued. */
  const Queries: seq<Query> := [
    Query("bankruptcy", "en", "Банкрутство"),
    Query("банкрутство", "uk", "Банкрутство"),
    Query("банкротство", "ru", "Банкрутство"),
    Query("banks", "en", "Банки"),
    Query("банки", "uk", "Банки"),
    Query("банки", "ru", "Банки"),
    Query("credits", "en", "Кредити"),
    Query("loans", "en", "Кредити"),
    Query("кредити", "uk", "Кредити"),
    Query("кредиты", "ru", "Кредити"),
    Query("legislation", "en", "Законодавство"),
    Query("law", "en", "Законодавство"),
    Query("законодавство", "uk", "Законодавство"),
    Query("законодательство", "ru", "Законодавство")
  ]

  /** An article as the search API returns it; `None` is an absent key.
      `sourceName` is `None` both when `source` is absent and when it has no
      `name`. */
  datatype RawArticle = RawArticle(
    url: Option<string>,
    title: Option<string>,
    description: Option<string>,
    sourceName: Option<string>,
    publishedAt: Option<string>,
    image: Option<string>)

  /** The articles of one search response; `None` when the request failed or
      returned no data. A missing `articles` list is `Some([])`. */
  type Response = Option<seq<RawArticle>>

  /** An article together with the query that found it. */
  datatype Candidate = Candidate(query: Query, article: RawArticle)

  /** The cache key of a candidate: its URL, "" when absent. */
  function Url(c: Candidate): string {
    c.article.url.GetOr("")
  }

  function UrlSet(cs: seq<Candidate>): set<string> {
    set c | c in cs :: Url(c)
  }

  /** The candidates one response contributes, in the API's order: none when
      the request failed or the response holds no articles. */
  function Batch(q: Query, response: Response): seq<Candidate> {
    match response
    case None => []
    case Some(articles) => Tag(q, articles)
  }

  /** Each article paired with the query that found it, in order. */
  function Tag(q: Query, articles: seq<RawArticle>): (r: seq<Candidate>)
    ensures |r| == |articles|
    ensures forall k :: 0 <= k < |r| ==> r[k] == Candidate(q, articles[k])
    decreases |articles|
  {
    if articles == [] then []
    else Tag(q, articles[..|articles| - 1]) + [Candidate(q, articles[|articles| - 1])]
  }

  /** The batch of each query, `responses[i]` being the response to `Queries[i]`. */
  function Batches(responses: seq<Response>): seq<seq<Candidate>>
    requires |responses| == |Queries|
  {
    seq(|Queries|, i requires 0 <= i < |Queries| => Batch(Queries[i], responses[i]))
  }

  /** Every candidate one call receives: query order, then API order. */
  function Received(responses: seq<Response>): seq<Candidate>
    requires |responses| == |Queries|
  {
    Flatten(Batches(responses))
  }

  /** Reference definition of the filter: a candidate is kept exactly when its
      URL is neither in the cache it started from nor the URL of an earlier
      candidate. */
  function Kept(cs: seq<Candidate>, seen: set<string>): seq<Candidate>
    decreases |cs|
  {
    if cs == [] then []
    else
      var init := cs[..|cs| - 1];
      var last := cs[|cs| - 1];
      Kept(init, seen) + (if Url(last) in seen + UrlSet(init) then [] else [last])
  }

  /** The dictionary `get_recent_news` builds for a kept article: the query's
      theme, text and language, and the article's fields, with "N/A" for an
      absent text field and `None` for an absent image. */
  function ArticleInfo(c: Candidate): (r: Dict)
    ensures r.Keys == {ThemeKey, QueryKey, LangKey, TitleKey, DescriptionKey, UrlKey, SourceKey, PublishedAtKey, ImageKey}
    ensures r[ThemeKey] == Str(c.query.theme) && r[QueryKey] == Str(c.query.query) && r[LangKey] == Str(c.query.lang)
    ensures r[UrlKey] == Str(Url(c))
    ensures forall k :: k in r && k != ImageKey ==> r[k].Str?
    ensures c.article.title.Some? ==> r[TitleKey] == Str(c.article.title.value)
    ensures c.article.title.None? ==> r[TitleKey] == Str(NotAvailable)
    ensures c.article.description.Some? ==> r[DescriptionKey] == Str(c.article.description.value)
    ensures c.article.description.None? ==> r[DescriptionKey] == Str(NotAvailable)
    ensures c.article.sourceName.Some? ==> r[SourceKey] == Str(c.article.sourceName.value)
    ensures c.article.sourceName.None? ==> r[SourceKey] == Str(NotAvailable)
    ensures c.article.publishedAt.Some? ==> r[PublishedAtKey] == Str(c.article.publishedAt.value)
    ensures c.article.publishedAt.None? ==> r[PublishedAtKey] == Str(NotAvailable)
    ensures r[ImageKey] == Null <==> c.article.image.None?
    ensures c.article.image.Some? ==> r[ImageKey] == Str(c.article.image.value)
  {
    var a := c.article;
    map[
      ThemeKey := Str(c.query.theme),
      QueryKey := Str(c.query.query),
      LangKey := Str(c.query.lang),
      TitleKey := Str(a.title.GetOr(NotAvailable)),
      DescriptionKey := Str(a.description.GetOr(NotAvailable)),
      UrlKey := Str(Url(c)),
      SourceKey := Str(a.sourceName.GetOr(NotAvailable)),
      PublishedAtKey := Str(a.publishedAt.GetOr(NotAvailable)),
      ImageKey := (match a.image case Some(i) => Str(i) case None => Null)
    ]
  }

  function Infos(cs: seq<Candidate>): seq<Dict> {
    seq(|cs|, i requires 0 <= i < |cs| => ArticleInfo(cs[i]))
  }

  /** The fetcher's state: the in-memory set of URLs already handed out. */
  datatype Fetcher = Fetcher(processedUrls: set<string>)

  /** `clear_processed_cache`: forgets every URL handed out so far. */
  function ClearProcessedCache(f: Fetcher): (r: Fetcher)
    ensures r.processedUrls == {}
  {
    Fetcher({})
  }

  /** `get_recent_news`, with `responses[i]` the outcome of searching
      `Queries[i]`. It returns the reference filter's articles, grows the cache
      by exactly the URLs of the articles received, and hands out no URL that
      was cached on entry and no URL twice. */
  method GetRecentNews(f: Fetcher, responses: seq<Response>) returns (articles: seq<Dict>, f': Fetcher)
    requires |responses| == |Queries|
    ensures articles == Infos(Kept(Received(responses), f.processedUrls))
    ensures f'.processedUrls == f.processedUrls + UrlSet(Received(responses))
    ensures forall i :: 0 <= i < |articles| ==>
              && UrlKey in articles[i] && articles[i][UrlKey].Str?
              && articles[i][UrlKey].s !in f.processedUrls
              && articles[i][UrlKey].s in f'.processedUrls
    ensures forall i, j :: 0 <= i < j < |articles| ==> articles[i][UrlKey] != articles[j][UrlKey]
  {
    var seen;
    articles, seen := FilterAll(Batches(responses), f.processedUrls);
    f' := Fetcher(seen);
    InfosFresh(Received(responses), f.processedUrls);
  }

  /** The dictionaries of the kept articles carry URLs that were not cached,
      that the grown cache holds, and that are pairwise distinct. */
  lemma InfosFresh(cs: seq<Candidate>, seen: set<string>)
    ensures var a := Infos(Kept(cs, seen));
            forall i :: 0 <= i < |a| ==>
              && UrlKey in a[i] && a[i][UrlKey].Str?
              && a[i][UrlKey].s !in seen
              && a[i][UrlKey].s in seen + UrlSet(cs)
    ensures var a := Infos(Kept(cs, seen));
            forall i, j :: 0 <= i < j < |a| ==> a[i][UrlKey] != a[j][UrlKey]
  {
    var k := Kept(cs, seen);
    KeptUrls(cs, seen);
    KeptDistinct(cs, seen);
    forall i | 0 <= i < |k| ensures Url(k[i]) in UrlSet(k) {
      assert k[i] in k;
    }
  }

  /** The outer loop of `get_recent_news`, one batch per query: the cache it
      returns is the cache it was given plus the URLs of every candidate. */
  method FilterAll(bs: seq<seq<Candidate>>, cache: set<string>) returns (articles: seq<Dict>, seen: set<string>)
    ensures articles == Infos(Kept(Flatten(bs), cache))
    ensures seen == cache + UrlSet(Flatten(bs))
  {
    seen := cache;
    articles := [];
    ghost var cs: seq<Candidate> := [];
    var i := 0;
    while i < |bs|
      invariant 0 <= i <= |bs|
      invariant cs == Flatten(bs[..i])
      invariant seen == cache + UrlSet(cs)
      invariant articles == Infos(Kept(cs, cache))
    {
      articles, seen := FilterBatch(bs[i], cache, cs, articles, seen);
      FlattenSnoc(bs, i);
      cs := cs + bs[i];
      i := i + 1;
    }
    assert bs[..i] == bs;
  }

  /** The inner loop of `get_recent_news`: each article is dropped when its
      URL is already in `seen`, and otherwise recorded and appended. */
  method FilterBatch(batch: seq<Candidate>, ghost cache: set<string>, ghost cs: seq<Candidate>,
                     articles: seq<Dict>, seen: set<string>)
    returns (articles': seq<Dict>, seen': set<string>)
    requires seen == cache + UrlSet(cs)
    requires articles == Infos(Kept(cs, cache))
    ensures seen' == cache + UrlSet(cs + batch)
    ensures articles' == Infos(Kept(cs + batch, cache))
  {
    articles', seen' := articles, seen;
    var j := 0;
    assert cs + batch[..0] == cs;
    while j < |batch|
      invariant 0 <= j <= |batch|
      invariant seen' == cache + UrlSet(cs + batch[..j])
      invariant articles' == Infos(Kept(cs + batch[..j], cache))
    {
      var c := batch[j];
      FilterStep(batch, j, cs, cache);
      if Url(c) !in seen' {
        seen' := seen' + {Url(c)};
        articles' := articles' + [ArticleInfo(c)];
      }
      j := j + 1;
    }
    assert batch[..j] == batch;
  }

  /** One iteration of the inner loop, stated on the reference filter. */
  lemma {:induction false} FilterStep(batch: seq<Candidate>, j: nat, cs: seq<Candidate>, cache: set<string>)
    requires j < |batch|
    ensures var done := cs + batch[..j];
            var c := batch[j];
            && cs + batch[..j + 1] == done + [c]
            && UrlSet(done + [c]) == UrlSet(done) + {Url(c)}
            && Infos(Kept(done + [c], cache))
               == Infos(Kept(done, cache)) + (if Url(c) in cache + UrlSet(done) then [] else [ArticleInfo(c)])
  {
    var done := cs + batch[..j];
    var c := batch[j];
    assert batch[..j + 1] == batch[..j] + [c];
    KeptSnoc(done, c, cache);
    UrlSetAppend(done, [c]);
    InfosSnoc(Kept(done, cache), c);
  }

  lemma KeptSnoc(cs: seq<Candidate>, c: Candidate, seen: set<string>)
    ensures Kept(cs + [c], seen) == Kept(cs, seen) + (if Url(c) in seen + UrlSet(cs) then [] else [c])
  {
    assert (cs + [c])[..|cs|] == cs;
  }

  lemma InfosSnoc(cs: seq<Candidate>, c: Candidate)
    ensures Infos(cs + [c]) == Infos(cs) + [ArticleInfo(c)]
  {
  }

  lemma UrlSetAppend(a: seq<Candidate>, b: seq<Candidate>)
    ensures UrlSet(a + b) == UrlSet(a) + UrlSet(b)
  {
    forall u | u in UrlSet(a + b) ensures u in UrlSet(a) + UrlSet(b) {
      var c :| c in a + b && Url(c) == u;
    }
  }

  /** The URLs handed out are exactly the URLs received minus those cached. */
  lemma {:induction false} KeptUrls(cs: seq<Candidate>, seen: set<string>)
    ensures UrlSet(Kept(cs, seen)) == UrlSet(cs) - seen
    decreases |cs|
  {
    if cs != [] {
      var init, last := cs[..|cs| - 1], cs[|cs| - 1];
      assert cs == init + [last];
      KeptUrls(init, seen);
      UrlSetAppend(init, [last]);
      UrlSetAppend(Kept(init, seen), if Url(last) in seen + UrlSet(init) then [] else [last]);
    }
  }

  /** No two articles handed out in one call share a URL. */
  lemma {:induction false} KeptDistinct(cs: seq<Candidate>, seen: set<string>)
    ensures forall i, j :: 0 <= i < j < |Kept(cs, seen)| ==> Url(Kept(cs, seen)[i]) != Url(Kept(cs, seen)[j])
    decreases |cs|
  {
    if cs != [] {
      var init, last := cs[..|cs| - 1], cs[|cs| - 1];
      KeptDistinct(init, seen);
      KeptUrls(init, seen);
      var k := Kept(init, seen);
      forall i | 0 <= i < |k| ensures Url(k[i]) in UrlSet(init) {
        assert k[i] in k;
        assert Url(k[i]) in UrlSet(k);
      }
    }
  }

  /** The articles come out in query order, then in the API's order. */
  lemma {:induction false} KeptInOrder(cs: seq<Candidate>, seen: set<string>)
    ensures SubseqOf(Kept(cs, seen), cs)
    decreases |cs|
  {
    if cs != [] {
      var init, last := cs[..|cs| - 1], cs[|cs| - 1];
      KeptInOrder(init, seen);
      var k := Kept(cs, seen);
      if Url(last) in seen + UrlSet(init) {
        assert k == Kept(init, seen);
      } else {
        assert k[..|k| - 1] == Kept(init, seen);
      }
    }
  }

  /** Every candidate whose URL is new — not cached and not seen earlier in the
      same call — is handed out. */
  lemma {:induction false} KeptFirstOccurrences(cs: seq<Candidate>, seen: set<string>)
    ensures forall i :: 0 <= i < |cs| && Url(cs[i]) !in seen + UrlSet(cs[..i]) ==> cs[i] in Kept(cs, seen)
    decreases |cs|
  {
    if cs != [] {
      var init := cs[..|cs| - 1];
      KeptFirstOccurrences(init, seen);
      forall i | 0 <= i < |cs| && Url(cs[i]) !in seen + UrlSet(cs[..i])
        ensures cs[i] in Kept(cs, seen)
      {
        if i < |init| {
          assert init[..i] == cs[..i];
          assert init[i] == cs[i];
        } else {
          assert cs[..i] == init;
        }
      }
    }
  }

  /** Filtering two lists in succession, the second against the cache the
      first one left, is filtering their concatenation: the articles of a later
      query (or a later call) are checked against everything before them. */
  lemma {:induction false} KeptAppend(a: seq<Candidate>, b: seq<Candidate>, seen: set<string>)
    ensures Kept(a + b, seen) == Kept(a, seen) + Kept(b, seen + UrlSet(a))
    decreases |b|
  {
    if b != [] {
      var b', x := b[..|b| - 1], b[|b| - 1];
      assert a + b == (a + b') + [x];
      assert b == b' + [x];
      KeptAppend(a, b', seen);
      KeptSnoc(a + b', x, seen);
      KeptSnoc(b', x, seen + UrlSet(a));
      UrlSetAppend(a, b');
    } else {
      assert a + b == a;
    }
  }

  /** No repeats across calls: what a second call hands out is disjoint from
      what the first call handed out, as long as the cache is not cleared in
      between. */
  lemma NoRepeatsAcrossCalls(first: seq<Candidate>, second: seq<Candidate>, seen: set<string>)
    ensures UrlSet(Kept(first, seen)) !! UrlSet(Kept(second, seen + UrlSet(first)))
  {
    KeptUrls(first, seen);
    KeptUrls(second, seen + UrlSet(first));
  }

  /** A missing URL counts as "": at most one URL-less article gets through
      per cache lifetime, and none once "" is cached. */
  lemma AtMostOneWithoutUrl(cs: seq<Candidate>, seen: set<string>)
    ensures forall i, j :: 0 <= i < j < |Kept(cs, seen)| ==> Url(Kept(cs, seen)[i]) != "" || Url(Kept(cs, seen)[j]) != ""
    ensures "" in seen ==> forall c :: c in Kept(cs, seen) ==> Url(c) != ""
  {
    KeptDistinct(cs, seen);
    KeptUrls(cs, seen);
    forall c | c in Kept(cs, seen) ensures Url(c) !in seen {
      assert Url(c) in UrlSet(Kept(cs, seen));
    }
  }

  /** A failed query — no response, or a response without articles —
      contributes nothing: the call receives what it would have received had
      the query not been issued, so it neither adds articles nor grows the
      cache. */
  lemma FailedQueryIsNoOp(responses: seq<Response>, i: nat)
    requires |responses| == |Queries| && i < |responses|
    requires responses[i] == None || responses[i] == Some([])
    ensures Batches(responses)[i] == []
    ensures Received(responses) == Flatten(Batches(responses)[..i] + Batches(responses)[i + 1..])
  {
    FlattenSkipsEmpty(Batches(responses), i);
  }

  /** After `clear_processed_cache`, an article whose URL the old cache held —
      and which the old cache would therefore have dropped — is handed out
      again. */
  lemma {:induction false} ClearReadmitsSeenUrl(f: Fetcher, cs: seq<Candidate>)
    requires |cs| > 0 && Url(cs[0]) in f.processedUrls
    ensures cs[0] !in Kept(cs, f.processedUrls)
    ensures |Kept(cs, ClearProcessedCache(f).processedUrls)| > 0
    ensures Kept(cs, ClearProcessedCache(f).processedUrls)[0] == cs[0]
  {
    KeptUrls(cs, f.processedUrls);
    assert cs == [cs[0]] + cs[1..];
    KeptAppend([cs[0]], cs[1..], {});
    KeptSnoc([], cs[0], {});
    assert [] + [cs[0]] == [cs[0]];
  }
}
