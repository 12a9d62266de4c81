/** The `crawl` generator of the Twitter sensor: paginated search under a tweet budget. */
module TweetCrawl {
  import opened Wrappers

  /** A tweet as the search API returns it; `createdAt` is None when `created_at` does not parse. */
  datatype RawTweet = RawTweet(id: int, createdAt: Option<int>)

  /** A yielded tweet with its parsed `created_ts`. */
  datatype Record = Record(id: int, createdTs: int)

  /** One search call: how many tweets to ask for and the optional `max_id`. */
  datatype Request = Request(count: int, maxId: Option<int>)

  /** What one page contributes: the parsed tweets yielded, and whether a tweet older than
      `since_id` ended the generator. */
  datatype PageScan = PageScan(yielded: seq<Record>, stopped: bool)

  /** The requests made, the pages they returned and the tweets yielded, in order. */
  datatype CrawlLog = CrawlLog(requests: seq<Request>, pages: seq<seq<RawTweet>>, yielded: seq<Record>)

  function Parse(t: RawTweet): seq<Record>
  {
    if t.createdAt.Some? then [Record(t.id, t.createdAt.value)] else []
  }

  function Parsed(ts: seq<RawTweet>): seq<Record>
  {
    if ts == [] then [] else Parse(ts[0]) + Parsed(ts[1..])
  }

  function Flatten(pages: seq<seq<RawTweet>>): seq<RawTweet>
  {
    if pages == [] then [] else pages[0] + Flatten(pages[1..])
  }

  /** The number of tweets in a list of pages, parsed or not. */
  function Total(pages: seq<seq<RawTweet>>): int
  {
    if pages == [] then 0 else |pages[0]| + Total(pages[1..])
  }

  function NextMaxId(minId: Option<int>): Option<int>
  {
    if minId.Some? then Some(minId.value - 1) else None
  }

  /** The inner `for tweet in res` loop. */
  function ScanPage(page: seq<RawTweet>, sinceId: Option<int>): PageScan
  {
    if page == [] then PageScan([], false)
    else if sinceId.Some? && page[0].id < sinceId.value then PageScan([], true)
    else
      var rest := ScanPage(page[1..], sinceId);
      PageScan(Parse(page[0]) + rest.yielded, rest.stopped)
  }

  /** The generator from a point where `tweet_count` is `count` and the last page ended at `minId`. */
  function CrawlFrom(search: Request -> seq<RawTweet>, perQuery: int, maxTweets: int, sinceId: Option<int>,
                     count: int, minId: Option<int>): CrawlLog
    decreases maxTweets - count
  {
    if count >= maxTweets then CrawlLog([], [], [])
    else
      var req := Request(Min(maxTweets - count, perQuery), NextMaxId(minId));
      var page := search(req);
      if page == [] then CrawlLog([req], [page], [])
      else
        var p := ScanPage(page, sinceId);
        if p.stopped then CrawlLog([req], [page], p.yielded)
        else
          var rest := CrawlFrom(search, perQuery, maxTweets, sinceId, count + |page|, Some(page[|page| - 1].id));
          CrawlLog([req] + rest.requests, [page] + rest.pages, p.yielded + rest.yielded)
  }

  /** The inner `for tweet in res` loop over one page. */
  method ScanPageLoop(res: seq<RawTweet>, sinceId: Option<int>) returns (p: PageScan)
    ensures p == ScanPage(res, sinceId)
  {
    var pageYield: seq<Record> := [];
    var i := 0;
    AfterEmpty(ScanPage(res, sinceId));
    while i < |res|
      invariant 0 <= i <= |res|
      invariant ScanPage(res, sinceId) == After(pageYield, ScanPage(res[i..], sinceId))
    {
      if sinceId.Some? && res[i].id < sinceId.value {
        assert ScanPage(res[i..], sinceId) == PageScan([], true);
        assert pageYield + [] == pageYield;
        return PageScan(pageYield, true);
      }
      assert res[i..][1..] == res[i + 1..];
      ghost var next := ScanPage(res[i + 1..], sinceId);
      assert ScanPage(res[i..], sinceId) == After(Parse(res[i]), next);
      AfterAfter(pageYield, Parse(res[i]), next);
      ghost var grown := pageYield + Parse(res[i]);
      if res[i].createdAt.Some? {
        pageYield := pageYield + [Record(res[i].id, res[i].createdAt.value)];
      } else {
        assert grown == pageYield + [];
      }
      assert pageYield == grown;
      i := i + 1;
    }
    assert ScanPage(res[|res|..], sinceId) == PageScan([], false);
    assert pageYield + [] == pageYield;
    return PageScan(pageYield, false);
  }

  /** Tweets already yielded from a page, followed by what the rest of the page does. */
  function After(yielded: seq<Record>, p: PageScan): PageScan
  {
    PageScan(yielded + p.yielded, p.stopped)
  }

  lemma AfterEmpty(p: PageScan)
    ensures After([], p) == p
  {
    assert [] + p.yielded == p.yielded;
  }

  lemma AfterAfter(a: seq<Record>, b: seq<Record>, p: PageScan)
    ensures After(a, After(b, p)) == After(a + b, p)
  {
    assert a + (b + p.yielded) == a + b + p.yielded;
  }

  /** One turn of the generator's `while` loop, as `CrawlFrom` unfolds it. */
  lemma CrawlUnfold(search: Request -> seq<RawTweet>, perQuery: int, maxTweets: int, sinceId: Option<int>,
                    count: int, minId: Option<int>)
    requires count < maxTweets
    ensures var req := Request(Min(maxTweets - count, perQuery), NextMaxId(minId));
      var page := search(req);
      var l := CrawlFrom(search, perQuery, maxTweets, sinceId, count, minId);
      (page == [] ==> l == CrawlLog([req], [page], [])) &&
      (page != [] && ScanPage(page, sinceId).stopped ==> l == CrawlLog([req], [page], ScanPage(page, sinceId).yielded)) &&
      (page != [] && !ScanPage(page, sinceId).stopped ==>
         var rest := CrawlFrom(search, perQuery, maxTweets, sinceId, count + |page|, Some(page[|page| - 1].id));
         l == Join(CrawlLog([req], [page], ScanPage(page, sinceId).yielded), rest))
  {
  }

  /** `crawl(hashtag, credentials, tweets_per_query, max_tweets, since_id)`, run to the end.
      The search API is the oracle `search`; `until` is accepted by the source and never used. */
  method Crawl(search: Request -> seq<RawTweet>, perQuery: int, maxTweets: int, sinceId: Option<int>)
    returns (log: CrawlLog)
    ensures log == CrawlFrom(search, perQuery, maxTweets, sinceId, 0, None)
  {
    var minId: Option<int> := None;
    var tweetCount := 0;
    var requests: seq<Request> := [];
    var pages: seq<seq<RawTweet>> := [];
    var yielded: seq<Record> := [];
    ghost var goal := CrawlFrom(search, perQuery, maxTweets, sinceId, 0, None);
    JoinAssoc(CrawlLog([], [], []), goal, CrawlLog([], [], []));
    while tweetCount < maxTweets
      invariant Join(CrawlLog(requests, pages, yielded), CrawlFrom(search, perQuery, maxTweets, sinceId, tweetCount, minId)) == goal
      decreases maxTweets - tweetCount
    {
      var req := Request(Min(maxTweets - tweetCount, perQuery), NextMaxId(minId));
      var res := search(req);
      var p := ScanPageLoop(res, sinceId);
      CrawlStep(search, perQuery, maxTweets, sinceId, tweetCount, minId, CrawlLog(requests, pages, yielded));
      requests := requests + [req];
      pages := pages + [res];
      if res == [] {
        return CrawlLog(requests, pages, yielded);
      }
      if p.stopped {
        return CrawlLog(requests, pages, yielded + p.yielded);
      }
      yielded := yielded + p.yielded;
      tweetCount := tweetCount + |res|;
      minId := Some(res[|res| - 1].id);
    }
    JoinAssoc(CrawlLog(requests, pages, yielded), CrawlLog([], [], []), CrawlLog([], [], []));
    return CrawlLog(requests, pages, yielded);
  }

  /** One turn of the generator's `while` loop after the calls before it logged `done`: the
      request and its page are logged, then the page's tweets, then either the generator
      ends or the rest of it follows. */
  lemma CrawlStep(search: Request -> seq<RawTweet>, perQuery: int, maxTweets: int, sinceId: Option<int>,
                  count: int, minId: Option<int>, done: CrawlLog)
    requires count < maxTweets
    ensures var req := Request(Min(maxTweets - count, perQuery), NextMaxId(minId));
      var page := search(req);
      var p := ScanPage(page, sinceId);
      var now := CrawlLog(done.requests + [req], done.pages + [page], done.yielded + (if page == [] then [] else p.yielded));
      Join(done, CrawlFrom(search, perQuery, maxTweets, sinceId, count, minId)) ==
        if page == [] || p.stopped then now
        else Join(now, CrawlFrom(search, perQuery, maxTweets, sinceId, count + |page|, Some(page[|page| - 1].id)))
  {
    var req := Request(Min(maxTweets - count, perQuery), NextMaxId(minId));
    var page := search(req);
    var p := ScanPage(page, sinceId);
    CrawlUnfold(search, perQuery, maxTweets, sinceId, count, minId);
    if page == [] {
      JoinAssoc(done, CrawlLog([req], [page], []), CrawlLog([], [], []));
      assert done.yielded + [] == done.yielded;
    } else if p.stopped {
      JoinAssoc(done, CrawlLog([req], [page], p.yielded), CrawlLog([], [], []));
    } else {
      JoinAssoc(done, CrawlLog([req], [page], p.yielded),
                CrawlFrom(search, perQuery, maxTweets, sinceId, count + |page|, Some(page[|page| - 1].id)));
    }
  }

  function Join(a: CrawlLog, b: CrawlLog): CrawlLog
  {
    CrawlLog(a.requests + b.requests, a.pages + b.pages, a.yielded + b.yielded)
  }

  lemma JoinAssoc(a: CrawlLog, b: CrawlLog, c: CrawlLog)
    ensures Join(Join(a, b), c) == Join(a, Join(b, c))
    ensures Join(a, CrawlLog([], [], [])) == a
  {
    assert a.requests + b.requests + c.requests == a.requests + (b.requests + c.requests);
    assert a.pages + b.pages + c.pages == a.pages + (b.pages + c.pages);
    assert a.yielded + b.yielded + c.yielded == a.yielded + (b.yielded + c.yielded);
    assert a.requests + [] == a.requests && a.pages + [] == a.pages && a.yielded + [] == a.yielded;
  }

  /** The requests and pages of one turn followed by those of the rest of the generator. */
  lemma CrawlCons(search: Request -> seq<RawTweet>, perQuery: int, maxTweets: int, sinceId: Option<int>,
                  count: int, minId: Option<int>)
    requires count < maxTweets
    ensures var req := Request(Min(maxTweets - count, perQuery), NextMaxId(minId));
      var page := search(req);
      var l := CrawlFrom(search, perQuery, maxTweets, sinceId, count, minId);
      var more := page != [] && !ScanPage(page, sinceId).stopped;
      var rest := if more then CrawlFrom(search, perQuery, maxTweets, sinceId, count + |page|, Some(page[|page| - 1].id))
                  else CrawlLog([], [], []);
      l.requests == [req] + rest.requests && l.pages == [page] + rest.pages
  {
  }

  /** One page per request, each the answer of the search API to that request; no request at
      all once the budget is spent. */
  lemma {:induction false} CrawlPages(search: Request -> seq<RawTweet>, perQuery: int, maxTweets: int,
                                     sinceId: Option<int>, count: int, minId: Option<int>)
    ensures var l := CrawlFrom(search, perQuery, maxTweets, sinceId, count, minId);
      |l.requests| == |l.pages| &&
      (l.requests == [] <==> count >= maxTweets) &&
      (forall k :: 0 <= k < |l.pages| ==> l.pages[k] == search(l.requests[k]))
    decreases maxTweets - count
  {
    if count < maxTweets {
      var req := Request(Min(maxTweets - count, perQuery), NextMaxId(minId));
      var page := search(req);
      CrawlCons(search, perQuery, maxTweets, sinceId, count, minId);
      if page != [] && !ScanPage(page, sinceId).stopped {
        CrawlPages(search, perQuery, maxTweets, sinceId, count + |page|, Some(page[|page| - 1].id));
      }
    }
  }

  /** Request k asks for `min(max_tweets - count, tweets_per_query)`, where `count` is `start`
      plus every tweet of the earlier pages, parsed or not, and is still under the budget. */
  ghost predicate Budgeted(requests: seq<Request>, pages: seq<seq<RawTweet>>, start: int, maxTweets: int, perQuery: int)
    requires |requests| == |pages|
  {
    forall k :: 0 <= k < |requests| ==>
      start + Total(pages[..k]) < maxTweets &&
      requests[k].count == Min(maxTweets - start - Total(pages[..k]), perQuery)
  }

  lemma BudgetedCons(req: Request, page: seq<RawTweet>, requests: seq<Request>, pages: seq<seq<RawTweet>>,
                     start: int, maxTweets: int, perQuery: int)
    requires |requests| == |pages|
    requires start < maxTweets && req.count == Min(maxTweets - start, perQuery)
    requires Budgeted(requests, pages, start + |page|, maxTweets, perQuery)
    ensures Budgeted([req] + requests, [page] + pages, start, maxTweets, perQuery)
  {
    var rq: seq<Request>, pg: seq<seq<RawTweet>> := [req] + requests, [page] + pages;
    forall k | 0 <= k < |rq|
      ensures start + Total(pg[..k]) < maxTweets
      ensures rq[k].count == Min(maxTweets - start - Total(pg[..k]), perQuery)
    {
      if k == 0 {
        assert pg[..0] == [];
      } else {
        assert pg[..k][0] == page;
        assert pg[..k][1..] == pages[..k - 1];
        assert rq[k] == requests[k - 1];
      }
    }
  }

  /** Every request after the first asks for `max_id` equal to the last id of the previous page
      minus one, so every page but the last is non-empty. */
  ghost predicate Chained(requests: seq<Request>, pages: seq<seq<RawTweet>>)
    requires |requests| == |pages|
  {
    forall k :: 0 <= k < |requests| - 1 ==>
      pages[k] != [] && requests[k + 1].maxId == Some(pages[k][|pages[k]| - 1].id - 1)
  }

  lemma ChainedCons(req: Request, page: seq<RawTweet>, requests: seq<Request>, pages: seq<seq<RawTweet>>)
    requires |requests| == |pages| && Chained(requests, pages)
    requires requests != [] ==> page != [] && requests[0].maxId == Some(page[|page| - 1].id - 1)
    ensures Chained([req] + requests, [page] + pages)
  {
    var rq: seq<Request>, pg: seq<seq<RawTweet>> := [req] + requests, [page] + pages;
    forall k | 0 <= k < |rq| - 1
      ensures pg[k] != [] && rq[k + 1].maxId == Some(pg[k][|pg[k]| - 1].id - 1)
    {
      if k == 0 {
        assert pg[0] == page && rq[1] == requests[0];
      } else {
        assert pg[k] == pages[k - 1] && rq[k + 1] == requests[k];
      }
    }
  }

  /** The tweet budget: no request is made once `tweet_count` reaches `max_tweets`, and each asks
      for the smaller of what is left and `tweets_per_query`. */
  lemma {:induction false} CrawlBudget(search: Request -> seq<RawTweet>, perQuery: int, maxTweets: int,
                                      sinceId: Option<int>, count: int, minId: Option<int>)
    ensures var l := CrawlFrom(search, perQuery, maxTweets, sinceId, count, minId);
      |l.requests| == |l.pages| && Budgeted(l.requests, l.pages, count, maxTweets, perQuery)
    decreases maxTweets - count
  {
    var l := CrawlFrom(search, perQuery, maxTweets, sinceId, count, minId);
    if count < maxTweets {
      var req := Request(Min(maxTweets - count, perQuery), NextMaxId(minId));
      var page := search(req);
      CrawlCons(search, perQuery, maxTweets, sinceId, count, minId);
      if page != [] && !ScanPage(page, sinceId).stopped {
        var rest := CrawlFrom(search, perQuery, maxTweets, sinceId, count + |page|, Some(page[|page| - 1].id));
        CrawlBudget(search, perQuery, maxTweets, sinceId, count + |page|, Some(page[|page| - 1].id));
        BudgetedCons(req, page, rest.requests, rest.pages, count, maxTweets, perQuery);
      } else {
        BudgetedCons(req, page, [], [], count, maxTweets, perQuery);
      }
    }
  }

  /** The first request carries the starting `max_id` and the later ones are chained. */
  lemma {:induction false} CrawlMaxIds(search: Request -> seq<RawTweet>, perQuery: int, maxTweets: int,
                                      sinceId: Option<int>, count: int, minId: Option<int>)
    ensures var l := CrawlFrom(search, perQuery, maxTweets, sinceId, count, minId);
      |l.requests| == |l.pages| &&
      (l.requests != [] ==> l.requests[0].maxId == NextMaxId(minId)) &&
      Chained(l.requests, l.pages)
    decreases maxTweets - count
  {
    var l := CrawlFrom(search, perQuery, maxTweets, sinceId, count, minId);
    if count < maxTweets {
      var req := Request(Min(maxTweets - count, perQuery), NextMaxId(minId));
      var page := search(req);
      CrawlCons(search, perQuery, maxTweets, sinceId, count, minId);
      if page != [] && !ScanPage(page, sinceId).stopped {
        var rest := CrawlFrom(search, perQuery, maxTweets, sinceId, count + |page|, Some(page[|page| - 1].id));
        CrawlMaxIds(search, perQuery, maxTweets, sinceId, count + |page|, Some(page[|page| - 1].id));
        ChainedCons(req, page, rest.requests, rest.pages);
      } else {
        ChainedCons(req, page, [], []);
      }
    }
  }

  lemma {:induction false} ParsedAppend(a: seq<RawTweet>, b: seq<RawTweet>)
    ensures Parsed(a + b) == Parsed(a) + Parsed(b)
  {
    if a != [] {
      assert (a + b)[1..] == a[1..] + b;
      ParsedAppend(a[1..], b);
    } else {
      assert a + b == b;
    }
  }

  /** A page yields its parsed tweets in order, dropping the ones whose date fails to parse,
      up to the first tweet older than `since_id`; all of them if none is older. */
  lemma {:induction false} ScanPageSpec(page: seq<RawTweet>, sinceId: Option<int>)
    ensures var p := ScanPage(page, sinceId);
      p.yielded <= Parsed(page) &&
      (!p.stopped ==> p.yielded == Parsed(page)) &&
      (sinceId.None? ==> !p.stopped) &&
      (sinceId.Some? ==> forall r :: r in p.yielded ==> r.id >= sinceId.value)
  {
    if page != [] {
      ScanPageSpec(page[1..], sinceId);
    }
  }

  /** The generator yields a prefix of the parsed tweets of the pages it fetched, every one
      with `id >= since_id`; without `since_id` it yields exactly the parsed tweets. */
  lemma {:induction false} CrawlYields(search: Request -> seq<RawTweet>, perQuery: int, maxTweets: int,
                                      sinceId: Option<int>, count: int, minId: Option<int>)
    ensures var l := CrawlFrom(search, perQuery, maxTweets, sinceId, count, minId);
      l.yielded <= Parsed(Flatten(l.pages)) &&
      (sinceId.None? ==> l.yielded == Parsed(Flatten(l.pages))) &&
      (sinceId.Some? ==> forall r :: r in l.yielded ==> r.id >= sinceId.value)
    decreases maxTweets - count
  {
    var l := CrawlFrom(search, perQuery, maxTweets, sinceId, count, minId);
    if count < maxTweets {
      var req := Request(Min(maxTweets - count, perQuery), NextMaxId(minId));
      var page := search(req);
      var p := ScanPage(page, sinceId);
      ScanPageSpec(page, sinceId);
      CrawlUnfold(search, perQuery, maxTweets, sinceId, count, minId);
      assert Flatten([page]) == page + [] == page;
      if page != [] && !p.stopped {
        var c' := count + |page|;
        var m' := Some(page[|page| - 1].id);
        var rest := CrawlFrom(search, perQuery, maxTweets, sinceId, c', m');
        CrawlYields(search, perQuery, maxTweets, sinceId, c', m');
        assert l.yielded == p.yielded + rest.yielded;
        assert ([page] + rest.pages)[1..] == rest.pages;
        assert Flatten(l.pages) == page + Flatten(rest.pages);
        ParsedAppend(page, Flatten(rest.pages));
        PrefixGrow(p.yielded, rest.yielded, Parsed(Flatten(rest.pages)));
        if sinceId.Some? {
          forall r | r in l.yielded
            ensures r.id >= sinceId.value
          {
            assert r in p.yielded || r in rest.yielded;
          }
        }
      }
    }
  }

  lemma PrefixGrow(a: seq<Record>, b: seq<Record>, c: seq<Record>)
    requires b <= c
    ensures a + b <= a + c
  {
    assert (a + c)[..|a + b|] == a + c[..|b|];
  }
}
