/** `TwitterSensor`: offers one dataset per missing cron window, and fills each window with
    tweets from a crawler it keeps alive between calls. */
module Twitter {
  import opened Wrappers
  import opened Text
  import opened Catalog
  import opened Schedule
  import opened TweetCrawl
  import opened Cursor

  /** `tweets_per_query` and `max_tweets` of the crawler the sensor starts. */
  const TweetsPerQuery := 100
  const MaxTweets := 10000

  /** One `upload_folder` call: the files of the temporary folder and the target URI. */
  datatype Upload = Upload(files: seq<(string, seq<Record>)>, target: string)

  /** What a new crawler for the hashtag would yield. */
  function NewCrawl(search: Request -> seq<RawTweet>): seq<Record>
  {
    CrawlFrom(search, TweetsPerQuery, MaxTweets, None, 0, None).yielded
  }

  /** The window `[t, next(t))` of each instant, in the same order. */
  function Windows(c: Cron, ts: seq<int>): (ws: seq<Window>)
    ensures |ws| == |ts|
    ensures forall i :: 0 <= i < |ts| ==> ws[i] == Window(ts[i], c.next(ts[i]))
  {
    if ts == [] then [] else [Window(ts[0], c.next(ts[0]))] + Windows(c, ts[1..])
  }

  class TwitterSensor {
    const precision: string
    const cron: Cron
    /** `str(datetime)` of an instant. */
    const render: int -> string
    const lookbackSeconds: int
    const lockingSeconds: int

    var crawler: Option<seq<Record>>
    var lastTweet: Option<Record>
    var writeLastTweet: bool
    var uploads: seq<Upload>

    ghost predicate Valid()
      reads this
    {
      WellFormed(cron) && Cursor.Valid(State(crawler, lastTweet))
    }

    /** The backfill horizon is one second short of `max_instance_age_seconds`; locking
        defaults to 600 seconds. No crawler exists yet. */
    constructor(precision: string, cron: Cron, render: int -> string, maxInstanceAgeSeconds: int,
                lockingSeconds: Option<int>)
      requires WellFormed(cron)
      ensures Valid()
      ensures this.precision == precision && this.cron == cron && this.render == render
      ensures this.lookbackSeconds == maxInstanceAgeSeconds - 1
      ensures this.lockingSeconds == if lockingSeconds.Some? then lockingSeconds.value else 600
      ensures crawler.None? && lastTweet.None? && !writeLastTweet && uploads == []
    {
      this.precision := precision;
      this.cron := cron;
      this.render := render;
      this.lookbackSeconds := maxInstanceAgeSeconds - 1;
      this.lockingSeconds := if lockingSeconds.Some? then lockingSeconds.value else 600;
      crawler := None;
      lastTweet := None;
      writeLastTweet := false;
      uploads := [];
    }

    /** The specification offered for the window starting at `t`. */
    function SpecFor(t: int): DatasetSpec
    {
      DatasetSpec(None, Some(render(t)), precision, lockingSeconds, None)
    }

    /** `get_new_datasetspecs` at wall-clock time `now`: starting two cron steps back, every
        visited instant after `now - lookback_seconds` whose key is not catalogued, newest
        first, each offered with `instance_ts = str(t)`. An unknown precision letter is a
        lookup error and a matching catalogue entry without a timestamp a type error. */
    method GetNewDatasetSpecs(datasets: seq<Dataset>, now: int) returns (r: Result<seq<Offer<int>>, string>)
      requires Valid()
      ensures KeyLength(precision).None? ==> r == Failure("KeyError: '" + precision + "'")
      ensures KeyLength(precision).Some? ==>
        var existing := ExistingKeys(datasets, precision, KeyLength(precision).value);
        (existing.Failure? ==> r == Failure(existing.error)) &&
        (existing.Success? ==>
           var m := Missing(cron, cron.prev(cron.prev(now)), now - lookbackSeconds, render,
                            KeyLength(precision).value, existing.value);
           r.Success? && |r.value| == |m| &&
           forall i :: 0 <= i < |m| ==> r.value[i] == Offer(m[i], SpecFor(m[i])))
    {
      var len := KeyLength(precision);
      if len.None? {
        return Failure("KeyError: '" + precision + "'");
      }
      var existing :- ExistingKeys(datasets, precision, len.value);
      var from := cron.prev(cron.prev(now));
      var floor := now - lookbackSeconds;
      ghost var goal := Missing(cron, from, floor, render, len.value, existing);
      var missing: set<int> := {};
      var indexTs := from;
      while indexTs > floor
        invariant forall t :: t in goal <==> t in missing || t in Missing(cron, indexTs, floor, render, len.value, existing)
        decreases indexTs - floor
      {
        if Take(render(indexTs), len.value) !in existing {
          missing := missing + {indexTs};
        }
        indexTs := cron.prev(indexTs);
      }
      var sorted := SortDescending(missing);
      MissingSpec(cron, from, floor, render, len.value, existing);
      DescendingUnique(sorted, goal);
      var offers: seq<Offer<int>> := [];
      for i := 0 to |sorted|
        invariant |offers| == i
        invariant forall j :: 0 <= j < i ==> offers[j] == Offer(sorted[j], SpecFor(sorted[j]))
      {
        offers := offers + [Offer(sorted[i], SpecFor(sorted[i]))];
      }
      return Success(offers);
    }

    /** `save_data_to_path(ts, uri)`: reuse the live crawler when its last tweet is not older
        than `ts`, else start a new one; write the window `[ts, next(ts))` to `part-00000`,
        leaving the crawler parked at the first older tweet; then upload the folder to the
        URI without its trailing `/`, which is asserted. */
    method SaveDataToPath(search: Request -> seq<RawTweet>, ts: int, uri: string) returns (r: Result<seq<Record>, string>)
      requires Valid()
      modifies this
      ensures Valid()
      ensures var p := Step(old(State(crawler, lastTweet)), NewCrawl(search), ts, cron.next(ts));
        State(crawler, lastTweet) == p.state &&
        writeLastTweet == Reuse(old(State(crawler, lastTweet)), ts) &&
        (|uri| > 0 && uri[|uri| - 1] == '/' ==>
           r == Success(p.written) &&
           uploads == old(uploads) + [Upload([("part-00000", p.written)], uri[..|uri| - 1])]) &&
        (!(|uri| > 0 && uri[|uri| - 1] == '/') ==>
           r == Failure("AssertionError") && uploads == old(uploads))
    {
      var tsNext := cron.next(ts);
      ghost var st := State(crawler, lastTweet);
      ghost var goal := Step(st, NewCrawl(search), ts, tsNext);
      writeLastTweet := false;
      if crawler.Some? && lastTweet.value.createdTs >= ts {
        writeLastTweet := true;
      } else {
        var log := Crawl(search, TweetsPerQuery, MaxTweets, None);
        crawler := Some(log.yielded);
      }
      var lines: seq<Record> := [];
      if writeLastTweet {
        if lastTweet.value.createdTs >= ts && lastTweet.value.createdTs < tsNext {
          lines := lines + [lastTweet.value];
        }
      }
      assert goal.written == lines + Pull(crawler.value, ts, tsNext).written;
      assert goal.state == Pull(crawler.value, ts, tsNext).state;
      var pulled := PullLoop(crawler.value, ts, tsNext);
      lines := lines + pulled;
      if !(|uri| > 0 && uri[|uri| - 1] == '/') {
        return Failure("AssertionError");
      }
      uploads := uploads + [Upload([("part-00000", lines)], uri[..|uri| - 1])];
      return Success(lines);
    }

    /** The `while True` loop: pull tweets from the crawler until one is older than `ts` or
        the crawler runs dry, writing those in `[ts, ts_next)`. */
    method PullLoop(src0: seq<Record>, ts: int, tsNext: int) returns (lines: seq<Record>)
      modifies this
      ensures lines == Pull(src0, ts, tsNext).written
      ensures State(crawler, lastTweet) == Pull(src0, ts, tsNext).state
      ensures writeLastTweet == old(writeLastTweet) && uploads == old(uploads)
    {
      lines := [];
      var src := src0;
      while true
        invariant Pull(src0, ts, tsNext).written == lines + Pull(src, ts, tsNext).written
        invariant Pull(src0, ts, tsNext).state == Pull(src, ts, tsNext).state
        invariant writeLastTweet == old(writeLastTweet) && uploads == old(uploads)
        decreases |src|
      {
        if src == [] {
          crawler := None;
          lastTweet := None;
          break;
        }
        var tweet := src[0];
        src := src[1..];
        crawler := Some(src);
        lastTweet := Some(tweet);
        if tweet.createdTs >= tsNext {
          continue;
        }
        if tweet.createdTs >= ts {
          lines := lines + [tweet];
        } else {
          break;
        }
      }
    }
  }

  /** The scheduler's windows line up for the cursor: with an aligned cron, the instants of
      the backward walk give consecutive windows, the newest ending at the cron instant before
      `now`. */
  lemma WalkWindows(c: Cron, now: int, floor: int)
    requires WellFormed(c) && Aligned(c)
    ensures var w := Walk(c, c.prev(c.prev(now)), floor);
      Consecutive(Windows(c, w)) && (w != [] ==> Windows(c, w)[0].next == c.prev(now))
  {
    var w := Walk(c, c.prev(c.prev(now)), floor);
    WalkTiles(c, now, floor);
    var ws := Windows(c, w);
    forall i | 0 <= i < |ws| - 1
      ensures ws[i + 1].next == ws[i].ts
    {
      assert ws[i + 1] == Window(w[i + 1], c.next(w[i + 1]));
    }
  }

  /** Backfilling every window of the walk, newest first, from a sensor with no crawler:
      when the crawl comes newest first, the partitions together hold exactly the tweets of
      the crawl created from the oldest window's start up to the cron instant before `now`. */
  lemma BackfillPartition(c: Cron, now: int, floor: int, s: seq<Record>)
    requires WellFormed(c) && Aligned(c) && NonIncreasing(s)
    requires c.prev(c.prev(now)) > floor
    ensures var w := Walk(c, c.prev(c.prev(now)), floor);
      w != [] &&
      Run(State(None, None), s, Windows(c, w)).written == InWindow(s, w[|w| - 1], c.prev(now))
  {
    var w := Walk(c, c.prev(c.prev(now)), floor);
    WalkChain(c, c.prev(c.prev(now)), floor);
    WalkWindows(c, now, floor);
    RunPartition(State(None, None), s, Windows(c, w));
  }

  /** The offered instants, which skip the catalogued ones, still give windows newest first,
      each ending at or before the start of the newer one. */
  lemma MissingWindows(c: Cron, now: int, floor: int, render: int -> string, len: nat, existing: set<string>)
    requires WellFormed(c) && Aligned(c)
    ensures Descending(Windows(c, Missing(c, c.prev(c.prev(now)), floor, render, len, existing)))
  {
    var from := c.prev(c.prev(now));
    var m := Missing(c, from, floor, render, len, existing);
    var w := Walk(c, from, floor);
    var ws := Windows(c, m);
    MissingSpec(c, from, floor, render, len, existing);
    WalkChain(c, from, floor);
    WalkTiles(c, now, floor);
    WalkDescending(c, from, floor);
    forall i | 0 <= i < |ws| - 1
      ensures ws[i + 1].next <= ws[i].ts
    {
      assert m[i] in m && m[i + 1] in m;
      var a :| 0 <= a < |w| && w[a] == m[i];
      var b :| 0 <= b < |w| && w[b] == m[i + 1];
      TileBelow(c, w, a, b);
    }
  }

  /** In a tiling walk, the window of an older instant ends at or before any newer instant. */
  lemma TileBelow(c: Cron, w: seq<int>, a: nat, b: nat)
    requires StrictlyDescending(w) && a < |w| && b < |w| && w[a] > w[b]
    requires forall i :: 0 <= i < |w| - 1 ==> c.next(w[i + 1]) == w[i]
    ensures c.next(w[b]) <= w[a]
  {
    assert a < b;
    assert c.next(w[b]) == w[b - 1];
  }

  /** Backfilling the offered windows, newest first, from a sensor with no crawler: on a
      crawl that comes newest first, each call writes exactly the tweets of its own window,
      even where catalogued windows leave gaps between the offers, and the calls together
      write the windows' tweets one window after another. */
  lemma BackfillMissing(c: Cron, now: int, floor: int, render: int -> string, len: nat, existing: set<string>,
                        s: seq<Record>)
    requires WellFormed(c) && Aligned(c) && NonIncreasing(s)
    ensures var m := Missing(c, c.prev(c.prev(now)), floor, render, len, existing);
      var ws := Windows(c, m);
      (forall i :: 0 <= i < |m| ==>
         Step(Run(State(None, None), s, ws[..i]).state, s, m[i], c.next(m[i])).written ==
         InWindow(s, m[i], c.next(m[i]))) &&
      Run(State(None, None), s, ws).written == Partitions(s, ws)
  {
    var m := Missing(c, c.prev(c.prev(now)), floor, render, len, existing);
    var ws := Windows(c, m);
    MissingWindows(c, now, floor, render, len, existing);
    forall i | 0 <= i < |m|
      ensures Step(Run(State(None, None), s, ws[..i]).state, s, m[i], c.next(m[i])).written ==
              InWindow(s, m[i], c.next(m[i]))
    {
      RunDescendingStep(s, ws, i);
    }
    if ws != [] {
      RunDescending(State(None, None), s, ws, ws[0].next);
    }
  }

  /** Per tweet: the backfill writes a tweet of the crawl as often as the crawl holds it when
      it falls in an offered window, and never when it falls in none of them. */
  lemma BackfillMissingOnce(c: Cron, now: int, floor: int, render: int -> string, len: nat, existing: set<string>,
                            s: seq<Record>, x: Record)
    requires WellFormed(c) && Aligned(c) && NonIncreasing(s)
    ensures var m := Missing(c, c.prev(c.prev(now)), floor, render, len, existing);
      multiset(Run(State(None, None), s, Windows(c, m)).written)[x] ==
      if exists i :: 0 <= i < |m| && m[i] <= x.createdTs < c.next(m[i]) then multiset(s)[x] else 0
  {
    var m := Missing(c, c.prev(c.prev(now)), floor, render, len, existing);
    var ws := Windows(c, m);
    MissingWindows(c, now, floor, render, len, existing);
    if ws != [] {
      RunDescending(State(None, None), s, ws, ws[0].next);
    }
    PartitionsCount(s, ws, x);
    WindowsCover(c, m, x.createdTs);
  }

  /** An instant lies in the window of one of the instants exactly when it lies in one of
      their windows. */
  lemma WindowsCover(c: Cron, m: seq<int>, t: int)
    ensures (exists i :: 0 <= i < |m| && m[i] <= t < c.next(m[i])) ==>
            (exists i :: 0 <= i < |Windows(c, m)| && Windows(c, m)[i].ts <= t < Windows(c, m)[i].next)
    ensures (exists i :: 0 <= i < |Windows(c, m)| && Windows(c, m)[i].ts <= t < Windows(c, m)[i].next) ==>
            (exists i :: 0 <= i < |m| && m[i] <= t < c.next(m[i]))
  {
    var ws := Windows(c, m);
    if i :| 0 <= i < |m| && m[i] <= t < c.next(m[i]) {
      assert ws[i] == Window(m[i], c.next(m[i]));
      assert 0 <= i < |ws| && ws[i].ts <= t < ws[i].next;
    }
    if i :| 0 <= i < |ws| && ws[i].ts <= t < ws[i].next {
      assert ws[i] == Window(m[i], c.next(m[i]));
      assert 0 <= i < |m| && m[i] <= t < c.next(m[i]);
    }
  }
}
