/** `NewsMonitorBot`: one news check (fetch, translate with per-article
    fallback, send) and the iteration arithmetic of `run_continuous` that
    decides when the fetcher's URL cache is cleared. */
module MonitorBot {
  import opened Wrappers
  import opened Json
  import opened Translator
  import opened NewsFetcher
  import opened TelegramBot

  /** The translation loop of `check_and_send_news`. `raised(i)` says that
      translating the i-th article raised; the article then goes on
      untranslated. Either way each article keeps its position and every
      key it had. */
  method TranslateAll(articles: seq<Dict>, service: Service, raised: nat -> bool) returns (translated: seq<Dict>)
    ensures |translated| == |articles|
    ensures forall i :: 0 <= i < |articles| ==>
              && articles[i].Keys <= translated[i].Keys
              && (forall k :: k in articles[i] && k != TitleUkKey && k != DescriptionUkKey ==>
                    translated[i][k] == articles[i][k])
    ensures forall i :: 0 <= i < |articles| ==>
              translated[i] == (if raised(i) then articles[i] else TranslateArticle(articles[i], service))
  {
    translated := [];
    var i := 0;
    while i < |articles|
      invariant 0 <= i <= |articles|
      invariant |translated| == i
      invariant forall j :: 0 <= j < i ==>
                  translated[j] == (if raised(j) then articles[j] else TranslateArticle(articles[j], service))
    {
      if raised(i) {
        translated := translated + [articles[i]];
      } else {
        translated := translated + [TranslateArticle(articles[i], service)];
      }
      i := i + 1;
    }
  }

  /** `check_and_send_news`: when the fetch hands out no article nothing is
      sent and 0 is returned; otherwise the translated articles go out as one
      batch and the number of successful article sends is returned. */
  method CheckAndSendNews(f: Fetcher, responses: seq<Response>, service: Service, raised: nat -> bool,
                          delivered: Transport)
    returns (sent: nat, f': Fetcher, sends: seq<Message>)
    requires |responses| == |Queries|
    ensures f'.processedUrls == f.processedUrls + UrlSet(Received(responses))
    ensures var found := |Kept(Received(responses), f.processedUrls)|;
            && sent == DeliveredCount(delivered, found)
            && sent <= found
            && (found == 0 ==> sends == [])
            && (found > 0 ==> |sends| == found + 2 && sends[0] == Header(found))
    ensures var fetched := Infos(Kept(Received(responses), f.processedUrls));
            |fetched| > 0 ==>
              && (forall k :: 0 <= k < |fetched| ==>
                    sends[k + 1] == Post(if raised(k) then fetched[k] else TranslateArticle(fetched[k], service)))
              && sends[|fetched| + 1] == Summary(sent, |fetched|)
  {
    var articles;
    articles, f' := GetRecentNews(f, responses);
    if articles == [] {
      return 0, f', [];
    }
    var translated := TranslateAll(articles, service, raised);
    sent, sends := SendArticlesBatch(translated, delivered);
  }

  /** The error `run_continuous` hits when the reset period is zero. */
  datatype Fault = ZeroDivision

  const HoursPerDay := 24
  const MinutesPerHour := 60

  /** Python's `a // b`: rounds toward negative infinity, so the quotient is
      the largest `q` with `b * q` on the same side of `a` as zero. */
  function FloorDiv(a: int, b: int): (q: int)
    requires b != 0
    ensures b > 0 ==> b * q <= a < b * q + b
    ensures b < 0 ==> b * q + b < a <= b * q
  {
    if b > 0 then a / b else (-a) / (-b)
  }

  /** Python's `a % b`: the remainder that goes with `FloorDiv` and takes the
      sign of `b`. */
  function FloorMod(a: int, b: int): (r: int)
    requires b != 0
    ensures a == b * FloorDiv(a, b) + r
    ensures b > 0 ==> 0 <= r < b
    ensures b < 0 ==> b < r <= 0
  {
    a - b * FloorDiv(a, b)
  }

  /** `24 * (60 // interval_minutes)`, the number of iterations between cache
      resets. For a positive interval of at most an hour it is the number of
      whole hours-worth of iterations in a day: the period spans at most one
      day and falls short of it by less than a day's 24 iterations. */
  function ResetPeriod(intervalMinutes: int): (r: Result<int, Fault>)
    ensures r.Failure? <==> intervalMinutes == 0
    ensures 1 <= intervalMinutes <= MinutesPerHour ==>
              && r.Success? && r.value >= HoursPerDay
              && r.value * intervalMinutes <= HoursPerDay * MinutesPerHour
              && (r.value + HoursPerDay) * intervalMinutes > HoursPerDay * MinutesPerHour
    ensures intervalMinutes > MinutesPerHour ==> r == Success(0)
    ensures intervalMinutes < 0 ==> r.Success? && r.value < 0
  {
    if intervalMinutes == 0 then Failure(ZeroDivision)
    else
      var perHour := FloorDiv(MinutesPerHour, intervalMinutes);
      assert intervalMinutes < 0 ==> perHour < 0 by {
        if intervalMinutes < 0 {
          NegativeQuotient(-MinutesPerHour, -intervalMinutes);
        }
      }
      assert 1 <= intervalMinutes <= MinutesPerHour ==>
               perHour * intervalMinutes <= MinutesPerHour < (perHour + 1) * intervalMinutes;
      Success(HoursPerDay * perHour)
  }

  /** The condition `iteration % (24 * (60 // interval_minutes)) == 0`. It
      raises exactly when the interval is 0 or longer than an hour; otherwise
      it holds exactly on the iterations the period divides. */
  function ShouldClearCache(iteration: int, intervalMinutes: int): (r: Result<bool, Fault>)
    ensures r.Failure? <==> intervalMinutes == 0 || intervalMinutes > MinutesPerHour
    ensures r.Success? ==> ResetPeriod(intervalMinutes).Success? && ResetPeriod(intervalMinutes).value != 0
                           && (r.value <==> iteration % ResetPeriod(intervalMinutes).value == 0)
  {
    match ResetPeriod(intervalMinutes)
    case Failure(e) => Failure(e)
    case Success(period) =>
      if period == 0 then Failure(ZeroDivision)
      else
        FloorModZero(iteration, period);
        Success(FloorMod(iteration, period) == 0)
  }

  /** The cache is cleared once per period: the condition repeats with the
      period, and among iterations 1..period only the last one clears. With
      the default 60-minute interval the period is 24 iterations. */
  lemma ClearsOncePerPeriod(iteration: int, intervalMinutes: int)
    requires 1 <= intervalMinutes <= MinutesPerHour
    ensures var period := ResetPeriod(intervalMinutes).value;
            && ShouldClearCache(iteration + period, intervalMinutes) == ShouldClearCache(iteration, intervalMinutes)
            && (1 <= iteration <= period ==> ShouldClearCache(iteration, intervalMinutes) == Success(iteration == period))
    ensures intervalMinutes == MinutesPerHour ==> ResetPeriod(intervalMinutes) == Success(24)
  {
    var period := ResetPeriod(intervalMinutes).value;
    EuclidUnique(iteration + period, period, iteration / period + 1, iteration % period);
    if 1 <= iteration < period {
      EuclidUnique(iteration, period, 0, iteration);
    } else if iteration == period {
      EuclidUnique(iteration, period, 1, 0);
    }
  }

  /** One pass of the `run_continuous` loop: a news check, then the cache
      reset test. The test raises when the interval is 0 or longer than an
      hour; the surrounding handler then ends the loop after this first
      check. Otherwise the cache is emptied on the iterations the period
      divides and keeps what the check recorded on all others. */
  method RunIteration(f: Fetcher, iteration: int, intervalMinutes: int, responses: seq<Response>, service: Service,
                      raised: nat -> bool, delivered: Transport)
    returns (sent: nat, sends: seq<Message>, next: Result<Fetcher, Fault>)
    requires |responses| == |Queries|
    ensures sent <= |Kept(Received(responses), f.processedUrls)|
    ensures var fetched := Infos(Kept(Received(responses), f.processedUrls));
            && sent == DeliveredCount(delivered, |fetched|)
            && (fetched == [] ==> sends == [])
            && (fetched != [] ==>
                  && |sends| == |fetched| + 2
                  && sends[0] == Header(|fetched|)
                  && (forall k :: 0 <= k < |fetched| ==>
                        sends[k + 1] == Post(if raised(k) then fetched[k] else TranslateArticle(fetched[k], service)))
                  && sends[|fetched| + 1] == Summary(sent, |fetched|))
    ensures next.Failure? <==> intervalMinutes == 0 || intervalMinutes > MinutesPerHour
    ensures next.Success? ==>
              next.value.processedUrls
              == if iteration % ResetPeriod(intervalMinutes).value == 0 then {}
                 else f.processedUrls + UrlSet(Received(responses))
  {
    var checked;
    sent, checked, sends := CheckAndSendNews(f, responses, service, raised, delivered);
    match ShouldClearCache(iteration, intervalMinutes)
    case Failure(e) =>
      next := Failure(e);
    case Success(clear) =>
      next := Success(if clear then ClearProcessedCache(checked) else checked);
  }

  lemma NegativeQuotient(a: int, m: int)
    requires a < 0 && m > 0
    ensures a / m < 0
  {
  }

  /** A remainder is zero under Python's rule exactly when it is zero under
      Euclidean division: both say that `b` divides `a`. */
  lemma FloorModZero(a: int, b: int)
    requires b != 0
    ensures FloorMod(a, b) == 0 <==> a % b == 0
  {
    if b < 0 {
      var m := -b;
      assert FloorMod(a, b) == -((-a) % m);
      assert a % b == a % m;
      NegatedDivides(a, m);
    }
  }

  lemma NegatedDivides(a: int, m: int)
    requires m > 0
    ensures a % m == 0 <==> (-a) % m == 0
  {
    if a % m == 0 {
      EuclidUnique(-a, m, -(a / m), 0);
    }
    if (-a) % m == 0 {
      EuclidUnique(a, m, -((-a) / m), 0);
    }
  }

  lemma EuclidUnique(a: int, m: int, q: int, r: int)
    requires m > 0 && 0 <= r < m && a == m * q + r
    ensures a / m == q && a % m == r
  {
    var q', r' := a / m, a % m;
    assert m * (q - q') == r' - r;
    if q > q' {
      MultiplyAtLeast(m, q - q');
    } else if q < q' {
      MultiplyAtLeast(m, q' - q);
    }
  }

  lemma MultiplyAtLeast(m: int, k: int)
    requires m > 0 && k >= 1
    ensures m * k >= m
  {
  }
}
