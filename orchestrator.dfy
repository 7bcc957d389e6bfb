/**
 * The route loop of `main`: for each configured route, build the feed URL
 * `http://<base>/<route>`, fetch and parse the feed, run `process_feed` on it
 * and append its articles, in route order. A fetch that fails raises out of
 * `main`, so nothing is sent; otherwise the whole batch goes to the queue.
 */
module Orchestrator {
  import opened Wrappers
  import opened Calendar
  import opened Feed
  import Serializer

  const Scheme: string := "http://"

  /** `f"http://{base}/{route}"` */
  function FeedUrl(base: string, route: string): string
  {
    Scheme + base + "/" + route
  }

  /** The parts of a feed URL: the scheme, the base, one '/', then the route. */
  lemma FeedUrlParts(base: string, route: string)
    ensures |FeedUrl(base, route)| == |Scheme| + |base| + 1 + |route|
    ensures FeedUrl(base, route)[..|Scheme|] == Scheme
    ensures FeedUrl(base, route)[|Scheme|..|Scheme| + |base|] == base
    ensures FeedUrl(base, route)[|Scheme| + |base|] == '/'
    ensures FeedUrl(base, route)[|Scheme| + |base| + 1..] == route
  {
    var u := FeedUrl(base, route);
    assert u == (Scheme + base) + ("/" + route);
    assert (Scheme + base)[..|Scheme|] == Scheme;
  }

  /** The route of a feed URL under a known base, or `None` if the URL is not one. */
  function RouteOf(base: string, url: string): Option<string>
  {
    var n := |Scheme| + |base|;
    if |url| > n && url[..|Scheme|] == Scheme && url[|Scheme|..n] == base && url[n] == '/'
    then Some(url[n + 1..])
    else None
  }

  /** The route can be read back from its URL. */
  lemma RouteOfFeedUrl(base: string, route: string)
    ensures RouteOf(base, FeedUrl(base, route)) == Some(route)
  {
    FeedUrlParts(base, route);
  }

  /** Distinct routes under one base are fetched from distinct URLs. */
  lemma FeedUrlInjective(base: string, r1: string, r2: string)
    requires FeedUrl(base, r1) == FeedUrl(base, r2)
    ensures r1 == r2
  {
    RouteOfFeedUrl(base, r1);
    RouteOfFeedUrl(base, r2);
  }

  /** A URL read as a feed URL is the one built from its route. */
  lemma FeedUrlOfRoute(base: string, url: string)
    requires RouteOf(base, url).Some?
    ensures FeedUrl(base, RouteOf(base, url).value) == url
  {
    var n := |Scheme| + |base|;
    var route := url[n + 1..];
    FeedUrlParts(base, route);
    var u := FeedUrl(base, route);
    forall k | 0 <= k < |url| ensures u[k] == url[k] {
      if k < |Scheme| {
        assert u[k] == u[..|Scheme|][k] && url[k] == url[..|Scheme|][k];
      } else if k < n {
        assert u[k] == u[|Scheme|..n][k - |Scheme|] && url[k] == url[|Scheme|..n][k - |Scheme|];
      } else if k > n {
        assert u[k] == u[n + 1..][k - n - 1] && url[k] == url[n + 1..][k - n - 1];
      }
    }
  }

  /** The configuration example of the test suite. */
  lemma FeedUrlExample()
    ensures FeedUrl("example.com", "route1") == "http://example.com/route1"
  {
  }

  /**
   * The route loop for any per-URL step `get`: the results for every route
   * concatenated in route order, or the URL of the first route whose step
   * fails (`None`, an exception that ends the loop).
   */
  function Collected<A>(base: string, routes: seq<string>, get: string -> Option<seq<A>>): Result<seq<A>, string>
  {
    if routes == [] then Success([])
    else
      var n := |routes| - 1;
      match Collected(base, routes[..n], get)
      case Failure(url) => Failure(url)
      case Success(xs) =>
        match get(FeedUrl(base, routes[n]))
        case None => Failure(FeedUrl(base, routes[n]))
        case Some(ys) => Success(xs + ys)
  }

  /**
   * The step of `main` for one URL: `fetch` stands for `fetch_rss_feed`
   * followed by reading the `<item>` nodes of the response (`None` where it
   * raises); `process_feed` then gives the URL's articles.
   */
  function Processed(fetch: string -> Option<seq<Item>>, start: DateTime, end: DateTime): string -> Option<seq<Article>>
    requires Valid(start) && Valid(end)
  {
    (url: string) =>
      match fetch(url)
      case None => None
      case Some(items) => Some(Extract(items, start, end))
  }

  /**
   * The URLs the route loop of `main` requests for any per-URL step `get`:
   * each route's URL in route order, up to and including the first one whose
   * step fails.
   */
  function Attempted<A>(base: string, routes: seq<string>, get: string -> Option<seq<A>>): seq<string>
  {
    if routes == [] then []
    else
      var n := |routes| - 1;
      if Collected(base, routes[..n], get).Failure? then Attempted(base, routes[..n], get)
      else Attempted(base, routes[..n], get) + [FeedUrl(base, routes[n])]
  }

  /** What the route loop of `main` produces: every route's articles in route order, or the first failing URL. */
  function Gather(base: string, routes: seq<string>, fetch: string -> Option<seq<Item>>,
                  start: DateTime, end: DateTime): Result<seq<Article>, string>
    requires Valid(start) && Valid(end)
  {
    Collected(base, routes, Processed(fetch, start, end))
  }

  /** The URLs `main` requests for its routes, in order, up to the first failing fetch. */
  function Requested(base: string, routes: seq<string>, fetch: string -> Option<seq<Item>>,
                     start: DateTime, end: DateTime): seq<string>
    requires Valid(start) && Valid(end)
  {
    Attempted(base, routes, Processed(fetch, start, end))
  }

  /**
   * The requested URLs are a prefix of the routes' URLs; every one before the
   * last had a successful step; on success all routes were requested, and on
   * failure the last one requested is the failing URL.
   */
  lemma {:induction false} AttemptedFacts<A>(base: string, routes: seq<string>, get: string -> Option<seq<A>>)
    ensures |Attempted(base, routes, get)| <= |routes|
    ensures forall j :: 0 <= j < |Attempted(base, routes, get)| ==> Attempted(base, routes, get)[j] == FeedUrl(base, routes[j])
    ensures forall j :: 0 <= j < |Attempted(base, routes, get)| - 1 ==> get(Attempted(base, routes, get)[j]).Some?
    ensures Collected(base, routes, get).Success? ==>
      |Attempted(base, routes, get)| == |routes| &&
      forall j :: 0 <= j < |routes| ==> get(Attempted(base, routes, get)[j]).Some?
    ensures Collected(base, routes, get).Failure? ==>
      var a := Attempted(base, routes, get);
      a != [] && Collected(base, routes, get).error == a[|a| - 1] && get(a[|a| - 1]).None?
    decreases |routes|
  {
    if routes != [] {
      var n := |routes| - 1;
      AttemptedFacts(base, routes[..n], get);
      assert forall j :: 0 <= j < n ==> routes[..n][j] == routes[j];
    }
  }

  /** `Requested` in terms of the fetches themselves. */
  lemma RequestedFacts(base: string, routes: seq<string>, fetch: string -> Option<seq<Item>>, start: DateTime, end: DateTime)
    requires Valid(start) && Valid(end)
    ensures |Requested(base, routes, fetch, start, end)| <= |routes|
    ensures forall j :: 0 <= j < |Requested(base, routes, fetch, start, end)| ==>
      Requested(base, routes, fetch, start, end)[j] == FeedUrl(base, routes[j])
    ensures forall j :: 0 <= j < |Requested(base, routes, fetch, start, end)| - 1 ==>
      fetch(Requested(base, routes, fetch, start, end)[j]).Some?
    ensures Gather(base, routes, fetch, start, end).Success? ==>
      |Requested(base, routes, fetch, start, end)| == |routes| &&
      forall j :: 0 <= j < |routes| ==> fetch(Requested(base, routes, fetch, start, end)[j]).Some?
    ensures Gather(base, routes, fetch, start, end).Failure? ==>
      var r := Requested(base, routes, fetch, start, end);
      r != [] && Gather(base, routes, fetch, start, end).error == r[|r| - 1] && fetch(r[|r| - 1]).None?
  {
    var get := Processed(fetch, start, end);
    AttemptedFacts(base, routes, get);
    var r := Attempted(base, routes, get);
    forall j | 0 <= j < |r| ensures get(r[j]).Some? == fetch(r[j]).Some? {
      ProcessedSome(fetch, start, end, r[j]);
    }
    if Collected(base, routes, get).Failure? {
      ProcessedSome(fetch, start, end, r[|r| - 1]);
    }
  }

  /** The step for a URL succeeds exactly when its fetch does. */
  lemma ProcessedSome(fetch: string -> Option<seq<Item>>, start: DateTime, end: DateTime, url: string)
    requires Valid(start) && Valid(end)
    ensures Processed(fetch, start, end)(url).Some? == fetch(url).Some?
  {
  }

  /** The route loop succeeds exactly when every route's step does. */
  lemma {:induction false} CollectedSucceeds<A>(base: string, routes: seq<string>, get: string -> Option<seq<A>>)
    ensures Collected(base, routes, get).Success? <==>
      forall j :: 0 <= j < |routes| ==> get(FeedUrl(base, routes[j])).Some?
    decreases |routes|
  {
    if routes != [] {
      var n := |routes| - 1;
      CollectedSucceeds(base, routes[..n], get);
      assert forall j :: 0 <= j < n ==> routes[..n][j] == routes[j];
    }
  }

  /** A failure names the URL of the first route whose step fails. */
  lemma {:induction false} CollectedFailsFirst<A>(base: string, routes: seq<string>, get: string -> Option<seq<A>>)
    requires Collected(base, routes, get).Failure?
    ensures exists j :: (0 <= j < |routes| && Collected(base, routes, get).error == FeedUrl(base, routes[j]) &&
      get(FeedUrl(base, routes[j])).None? &&
      forall i :: 0 <= i < j ==> get(FeedUrl(base, routes[i])).Some?)
    decreases |routes|
  {
    var n := |routes| - 1;
    assert forall i :: 0 <= i < n ==> routes[..n][i] == routes[i];
    if Collected(base, routes[..n], get).Failure? {
      CollectedFailsFirst(base, routes[..n], get);
      var j :| 0 <= j < n && Collected(base, routes[..n], get).error == FeedUrl(base, routes[..n][j]) &&
        get(FeedUrl(base, routes[..n][j])).None? &&
        forall i :: 0 <= i < j ==> get(FeedUrl(base, routes[..n][i])).Some?;
      assert routes[..n][j] == routes[j];
    } else {
      CollectedSucceeds(base, routes[..n], get);
      assert get(FeedUrl(base, routes[n])).None?;
    }
  }

  /** Routes are handled in order: the batch of `r1 + r2` is the batch of `r1` followed by that of `r2`. */
  lemma {:induction false} CollectedAppend<A>(base: string, r1: seq<string>, r2: seq<string>, get: string -> Option<seq<A>>)
    requires Collected(base, r1, get).Success? && Collected(base, r2, get).Success?
    ensures Collected(base, r1 + r2, get) == Success(Collected(base, r1, get).value + Collected(base, r2, get).value)
    decreases |r2|
  {
    if r2 == [] {
      assert r1 + r2 == r1;
      assert Collected(base, r1, get).value + [] == Collected(base, r1, get).value;
    } else {
      var n := |r2| - 1;
      var r := r1 + r2;
      assert r[..|r| - 1] == r1 + r2[..n];
      assert r[|r| - 1] == r2[n];
      CollectedAppend(base, r1, r2[..n], get);
      var a, b := Collected(base, r1, get).value, Collected(base, r2[..n], get).value;
      var ys := get(FeedUrl(base, r2[n])).value;
      assert (a + b) + ys == a + (b + ys);
    }
  }

  /** One more successful route appends its results to the batch so far. */
  lemma CollectedStep<A>(base: string, routes: seq<string>, i: nat, get: string -> Option<seq<A>>, xs: seq<A>, ys: seq<A>)
    requires i < |routes| && Collected(base, routes[..i], get) == Success(xs) && get(FeedUrl(base, routes[i])) == Some(ys)
    ensures Collected(base, routes[..i + 1], get) == Success(xs + ys)
  {
    assert routes[..i + 1][..i] == routes[..i] && routes[..i + 1][i] == routes[i];
  }

  /** One more route whose step is reached adds its URL to those requested. */
  lemma AttemptedStep<A>(base: string, routes: seq<string>, i: nat, get: string -> Option<seq<A>>)
    requires i < |routes| && Collected(base, routes[..i], get).Success?
    ensures Attempted(base, routes[..i + 1], get) == Attempted(base, routes[..i], get) + [FeedUrl(base, routes[i])]
  {
    assert routes[..i + 1][..i] == routes[..i] && routes[..i + 1][i] == routes[i];
  }

  /** Once a route's step fails, no later route is requested. */
  lemma {:induction false} AttemptedStops<A>(base: string, routes: seq<string>, i: nat, get: string -> Option<seq<A>>)
    requires i < |routes| && Collected(base, routes[..i], get).Success? && get(FeedUrl(base, routes[i])).None?
    ensures Attempted(base, routes, get) == Attempted(base, routes[..i + 1], get)
    decreases |routes|
  {
    var n := |routes| - 1;
    if i == n {
      assert routes[..i + 1] == routes;
    } else {
      assert routes[..n][..i] == routes[..i] && routes[..n][i] == routes[i] && routes[..n][..i + 1] == routes[..i + 1];
      AttemptedStops(base, routes[..n], i, get);
      CollectedStops(base, routes[..n], i, get);
    }
  }

  /** Once a route's step fails, the later routes change nothing: the outcome is that failure. */
  lemma {:induction false} CollectedStops<A>(base: string, routes: seq<string>, i: nat, get: string -> Option<seq<A>>)
    requires i < |routes| && Collected(base, routes[..i], get).Success? && get(FeedUrl(base, routes[i])).None?
    ensures Collected(base, routes, get) == Failure(FeedUrl(base, routes[i]))
    decreases |routes|
  {
    var n := |routes| - 1;
    if i == n {
      assert routes[..n] == routes[..i];
    } else {
      assert routes[..n][..i] == routes[..i] && routes[..n][i] == routes[i];
      CollectedStops(base, routes[..n], i, get);
    }
  }

  /** Every element of a successful batch comes from some route's result. */
  lemma {:induction false} CollectedFrom<A>(base: string, routes: seq<string>, get: string -> Option<seq<A>>, j: nat)
    requires Collected(base, routes, get).Success? && j < |Collected(base, routes, get).value|
    ensures exists r, k :: (0 <= r < |routes| && get(FeedUrl(base, routes[r])).Some? &&
      0 <= k < |get(FeedUrl(base, routes[r])).value| &&
      Collected(base, routes, get).value[j] == get(FeedUrl(base, routes[r])).value[k])
    decreases |routes|
  {
    var n := |routes| - 1;
    var xs := Collected(base, routes[..n], get).value;
    var ys := get(FeedUrl(base, routes[n])).value;
    if j < |xs| {
      CollectedFrom(base, routes[..n], get, j);
      var r, k :| 0 <= r < n && get(FeedUrl(base, routes[..n][r])).Some? &&
        0 <= k < |get(FeedUrl(base, routes[..n][r])).value| &&
        xs[j] == get(FeedUrl(base, routes[..n][r])).value[k];
      assert routes[..n][r] == routes[r];
    } else {
      assert Collected(base, routes, get).value[j] == ys[j - |xs|];
    }
  }

  /** One route contributes exactly `process_feed` of its feed. */
  lemma GatherOne(base: string, route: string, fetch: string -> Option<seq<Item>>, start: DateTime, end: DateTime)
    requires Valid(start) && Valid(end) && fetch(FeedUrl(base, route)).Some?
    ensures Gather(base, [route], fetch, start, end) == Success(Extract(fetch(FeedUrl(base, route)).value, start, end))
  {
    var get := Processed(fetch, start, end);
    var articles := Extract(fetch(FeedUrl(base, route)).value, start, end);
    assert get(FeedUrl(base, route)) == Some(articles);
    assert [route][..0] == [] && [route][0] == route;
    assert Collected(base, [route][..0], get) == Success([]);
    assert [] + articles == articles;
  }

  /**
   * The loop of `main` at its lines 93-97: fetches the routes' URLs in order,
   * stopping at the first that fails, and returns the URLs it requested and
   * the outcome.
   */
  method CollectMessages(base: string, routes: seq<string>, fetch: string -> Option<seq<Item>>,
                         start: DateTime, end: DateTime)
    returns (requested: seq<string>, outcome: Result<seq<Article>, string>)
    requires Valid(start) && Valid(end)
    ensures outcome == Gather(base, routes, fetch, start, end)
    ensures requested == Requested(base, routes, fetch, start, end)
    ensures |requested| <= |routes| && forall j :: 0 <= j < |requested| ==> requested[j] == FeedUrl(base, routes[j])
    ensures forall j :: 0 <= j < |requested| - 1 ==> fetch(requested[j]).Some?
    ensures outcome.Success? ==> |requested| == |routes| && forall j :: 0 <= j < |requested| ==> fetch(requested[j]).Some?
    ensures outcome.Failure? ==>
      requested != [] && outcome.error == requested[|requested| - 1] && fetch(requested[|requested| - 1]).None?
  {
    var allMessages: seq<Article> := [];
    requested := [];
    for i := 0 to |routes|
      invariant requested == Requested(base, routes[..i], fetch, start, end)
      invariant Gather(base, routes[..i], fetch, start, end) == Success(allMessages)
    {
      var feedUrl := FeedUrl(base, routes[i]);
      AttemptedStep(base, routes, i, Processed(fetch, start, end));
      requested := requested + [feedUrl];
      var processed := ProcessRoute(fetch, feedUrl, start, end);
      if processed.None? {
        outcome := Failure(feedUrl);
        CollectedStops(base, routes, i, Processed(fetch, start, end));
        AttemptedStops(base, routes, i, Processed(fetch, start, end));
        RequestedFacts(base, routes, fetch, start, end);
        return;
      }
      CollectedStep(base, routes, i, Processed(fetch, start, end), allMessages, processed.value);
      allMessages := allMessages + processed.value;
    }
    assert routes[..|routes|] == routes;
    RequestedFacts(base, routes, fetch, start, end);
    outcome := Success(allMessages);
  }

  /** One route's step: fetch the feed, then `process_feed` on its items; `None` when the fetch raises. */
  method ProcessRoute(fetch: string -> Option<seq<Item>>, feedUrl: string, start: DateTime, end: DateTime)
    returns (processed: Option<seq<Article>>)
    requires Valid(start) && Valid(end)
    ensures processed.Some? <==> fetch(feedUrl).Some?
    ensures processed.Some? ==> processed.value == Extract(fetch(feedUrl).value, start, end)
    ensures processed == Processed(fetch, start, end)(feedUrl)
  {
    var fetched := fetch(feedUrl);
    if fetched.None? {
      return None;
    }
    var articles := ProcessFeed(fetched.value, start, end);
    processed := Some(articles);
  }

  /**
   * `main` after reading its configuration and arguments: the route loop, then,
   * only if it succeeded, one fresh dict per article handed to `send_to_sqs`.
   */
  method Run(base: string, routes: seq<string>, fetch: string -> Option<seq<Item>>,
             start: DateTime, end: DateTime, queueUrl: string)
    returns (requested: seq<string>, sent: seq<Serializer.Send>)
    requires Valid(start) && Valid(end)
    ensures Gather(base, routes, fetch, start, end).Failure? ==> sent == []
    ensures Gather(base, routes, fetch, start, end).Success? ==>
      var batch := Gather(base, routes, fetch, start, end).value;
      Serializer.AllStampValid(batch) && |sent| == |batch| && forall j :: 0 <= j < |batch| ==> sent[j] == Serializer.Send(queueUrl, Serializer.SerializedAll(batch)[j])
    ensures requested == Requested(base, routes, fetch, start, end)
    ensures |requested| <= |routes| && forall j :: 0 <= j < |requested| ==> requested[j] == FeedUrl(base, routes[j])
    ensures forall j :: 0 <= j < |requested| - 1 ==> fetch(requested[j]).Some?
    ensures Gather(base, routes, fetch, start, end).Success? ==>
      |requested| == |routes| && forall j :: 0 <= j < |requested| ==> fetch(requested[j]).Some?
    ensures Gather(base, routes, fetch, start, end).Failure? ==>
      requested != [] && fetch(requested[|requested| - 1]).None? &&
      Gather(base, routes, fetch, start, end).error == requested[|requested| - 1]
  {
    var outcome;
    requested, outcome := CollectMessages(base, routes, fetch, start, end);
    if outcome.Failure? {
      sent := [];
      return;
    }
    BatchStampValid(base, routes, fetch, start, end);
    sent := Dispatch(queueUrl, outcome.value);
  }

  /**
   * `send_to_sqs(messages, queue_url)` on the gathered batch: one send per
   * article, in order, each body the serialised article.
   */
  method Dispatch(queueUrl: string, batch: seq<Article>) returns (sent: seq<Serializer.Send>)
    requires Serializer.AllStampValid(batch)
    ensures |sent| == |batch|
    ensures forall j :: 0 <= j < |batch| ==> sent[j] == Serializer.Send(queueUrl, Serializer.SerializedAll(batch)[j])
  {
    // Each article is a dict of its own in `main` (`article = {}` in `process_feed`);
    // this loop only allocates one `Message` object per article to stand for it.
    var messages: seq<Serializer.Message> := [];
    for i := 0 to |batch|
      invariant |messages| == i
      invariant forall j :: 0 <= j < i ==> fresh(messages[j]) && messages[j].fields == batch[j]
    {
      var m := new Serializer.Message(batch[i]);
      messages := messages + [m];
    }
    assert Serializer.Fields(messages) == batch;
    sent := Serializer.SendAll(queueUrl, messages);
  }

  /** Every article of a gathered batch holds a valid `datetime`, if any. */
  lemma BatchStampValid(base: string, routes: seq<string>, fetch: string -> Option<seq<Item>>,
                        start: DateTime, end: DateTime)
    requires Valid(start) && Valid(end) && Gather(base, routes, fetch, start, end).Success?
    ensures Serializer.AllStampValid(Gather(base, routes, fetch, start, end).value)
  {
    var get := Processed(fetch, start, end);
    var batch := Gather(base, routes, fetch, start, end).value;
    forall j | 0 <= j < |batch| ensures Serializer.StampValid(batch[j]) {
      CollectedFrom(base, routes, get, j);
      var r, k :| 0 <= r < |routes| && get(FeedUrl(base, routes[r])).Some? &&
        0 <= k < |get(FeedUrl(base, routes[r])).value| &&
        batch[j] == get(FeedUrl(base, routes[r])).value[k];
      var items := fetch(FeedUrl(base, routes[r])).value;
      Serializer.ExtractedUnserialized(items, start, end, k);
    }
  }
}
