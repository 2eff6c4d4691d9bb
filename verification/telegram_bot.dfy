/** `TelegramBot.send_articles_batch`: which messages a batch sends and how
    many article sends it counts. The transport is an input saying whether
    each `send_message` call of the batch succeeds. */
module TelegramBot {
  import opened Json

  /** A message handed to `send_message`. `Post` stands for the formatted text
      of one article. */
  datatype Message = Header(found: nat) | Post(article: Dict) | Summary(sent: nat, total: nat)

  /** `delivered(n)`: whether the n-th `send_message` call of the batch
      succeeds, counting the header as call 0, so that article k is call k + 1
      and the summary is call |articles| + 1. */
  type Transport = nat -> bool

  /** How many of the calls 1..n succeeded: the article sends of an n-article
      batch. */
  function DeliveredCount(delivered: Transport, n: nat): (r: nat)
    ensures r <= n
    ensures r == n <==> forall k :: 1 <= k <= n ==> delivered(k)
    ensures r == 0 <==> forall k :: 1 <= k <= n ==> !delivered(k)
  {
    if n == 0 then 0 else DeliveredCount(delivered, n - 1) + (if delivered(n) then 1 else 0)
  }

  /** `send_articles_batch`: nothing at all for an empty batch; otherwise a
      header announcing the batch size, one post per article in order, and a
      summary, i.e. |articles| + 2 sends. It returns the number of successful
      article sends; the header's and the summary's outcomes do not count. */
  method SendArticlesBatch(articles: seq<Dict>, delivered: Transport) returns (sentCount: nat, sends: seq<Message>)
    ensures articles == [] ==> sentCount == 0 && sends == []
    ensures articles != [] ==>
              && |sends| == |articles| + 2
              && sends[0] == Header(|articles|)
              && (forall k :: 0 <= k < |articles| ==> sends[k + 1] == Post(articles[k]))
              && sends[|articles| + 1] == Summary(sentCount, |articles|)
    ensures sentCount == DeliveredCount(delivered, |articles|)
    ensures sentCount <= |articles|
  {
    sentCount := 0;
    if articles == [] {
      return 0, [];
    }
    sends := [Header(|articles|)];
    var k := 0;
    while k < |articles|
      invariant 0 <= k <= |articles|
      invariant |sends| == k + 1
      invariant sends[0] == Header(|articles|)
      invariant forall i :: 0 <= i < k ==> sends[i + 1] == Post(articles[i])
      invariant sentCount == DeliveredCount(delivered, k)
    {
      if delivered(|sends|) {
        sentCount := sentCount + 1;
      }
      sends := sends + [Post(articles[k])];
      k := k + 1;
    }
    sends := sends + [Summary(sentCount, |articles|)];
  }

  /** Header and summary failures do not affect the count: two transports that
      agree on the article sends yield the same count. */
  lemma {:induction false} ControlSendsDoNotCount(d1: Transport, d2: Transport, n: nat)
    requires forall k :: 1 <= k <= n ==> d1(k) == d2(k)
    ensures DeliveredCount(d1, n) == DeliveredCount(d2, n)
  {
    if n > 0 {
      ControlSendsDoNotCount(d1, d2, n - 1);
    }
  }
}
