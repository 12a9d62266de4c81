/** The Twitter sensor's resumable cursor: the crawl it keeps between calls of
    `save_data_to_path`, the last tweet it pulled, and which tweets each call writes. */
module Cursor {
  import opened Wrappers
  import opened TweetCrawl

  /** `self.crawler` (the tweets the generator has still to yield) and `self.last_tweet`. */
  datatype State = State(crawler: Option<seq<Record>>, lastTweet: Option<Record>)

  /** The tweets one call writes to `part-00000`, and the cursor it leaves behind. */
  datatype Pulled = Pulled(written: seq<Record>, state: State)

  /** The window `[ts, ts_next)` of one call. */
  datatype Window = Window(ts: int, next: int)

  /** A live crawler always comes with the tweet it last yielded. */
  predicate Valid(st: State)
  {
    st.crawler.Some? ==> st.lastTweet.Some?
  }

  /** The tweets of `s` created in `[lo, hi)`, in order. */
  function InWindow(s: seq<Record>, lo: int, hi: int): seq<Record>
  {
    if s == [] then []
    else (if lo <= s[0].createdTs < hi then [s[0]] else []) + InWindow(s[1..], lo, hi)
  }

  /** Tweets come newest first. */
  ghost predicate NonIncreasing(s: seq<Record>)
  {
    forall i, j :: 0 <= i < j < |s| ==> s[j].createdTs <= s[i].createdTs
  }

  /** The position of the first tweet older than `bound`, or `|s|` when there is none. */
  function FirstBelow(s: seq<Record>, bound: int): (k: nat)
    ensures k <= |s|
    ensures forall j :: 0 <= j < k ==> s[j].createdTs >= bound
    ensures k < |s| ==> s[k].createdTs < bound
  {
    if s == [] || s[0].createdTs < bound then 0 else 1 + FirstBelow(s[1..], bound)
  }

  /** The `while True` loop of `save_data_to_path` over the crawler `s`: tweets at or after
      `ts_next` are skipped, tweets at or after `ts` are written, and the first older tweet
      ends the call, staying behind as `last_tweet` with the crawler parked after it; when the
      crawler runs dry both become None. */
  function Pull(s: seq<Record>, ts: int, tsNext: int): (p: Pulled)
    ensures Valid(p.state)
    ensures forall x :: x in p.written ==> x in s && ts <= x.createdTs < tsNext
  {
    if s == [] then Pulled([], State(None, None))
    else if s[0].createdTs >= tsNext then Pull(s[1..], ts, tsNext)
    else if s[0].createdTs >= ts then
      var p := Pull(s[1..], ts, tsNext);
      Pulled([s[0]] + p.written, p.state)
    else Pulled([], State(Some(s[1..]), Some(s[0])))
  }

  /** The crawler is reused when one is live and its last tweet is not older than `ts`. */
  predicate Reuse(st: State, ts: int)
  {
    st.crawler.Some? && st.lastTweet.Some? && st.lastTweet.value.createdTs >= ts
  }

  /** One call of `save_data_to_path` as the source writes it: on reuse, the carried last tweet
      is written whenever it is not older than `ts`, even if it is at or after `ts_next`. */
  function StepAsWritten(st: State, newCrawl: seq<Record>, ts: int, tsNext: int): (p: Pulled)
    ensures Valid(p.state)
    ensures Reuse(st, ts) ==> p.written != [] && p.written[0] == st.lastTweet.value
  {
    if Reuse(st, ts) then
      var p := Pull(st.crawler.value, ts, tsNext);
      Pulled([st.lastTweet.value] + p.written, p.state)
    else Pull(newCrawl, ts, tsNext)
  }

  /** One call of `save_data_to_path`, with the carried tweet held to the window like every
      other one. `newCrawl` is what a new crawl would yield. */
  function Step(st: State, newCrawl: seq<Record>, ts: int, tsNext: int): (p: Pulled)
    ensures Valid(p.state)
    ensures forall x :: x in p.written ==> ts <= x.createdTs < tsNext
  {
    if Reuse(st, ts) then
      var last := st.lastTweet.value;
      var p := Pull(st.crawler.value, ts, tsNext);
      Pulled((if last.createdTs < tsNext then [last] else []) + p.written, p.state)
    else Pull(newCrawl, ts, tsNext)
  }

  /** A counterexample: windows `[100, 110)` and then `[80, 90)` (the one between them already
      in the catalog). The first call stops at a tweet of 95, which the second call writes into
      the `[80, 90)` partition. */
  lemma StepAsWrittenLeaks()
    ensures var st := Pull([Record(2, 105), Record(1, 95)], 100, 110).state;
      st == State(Some([]), Some(Record(1, 95))) &&
      StepAsWritten(st, [], 80, 90).written == [Record(1, 95)] &&
      Step(st, [], 80, 90).written == []
  {
    assert [Record(2, 105), Record(1, 95)][1..] == [Record(1, 95)];
    assert [Record(1, 95)][1..] == [];
  }

  /** Where the cursor stands after all windows down to `bound`: parked just past the first
      tweet of `s` older than `bound`, holding it, or finished when there is none. */
  ghost predicate Resumable(st: State, s: seq<Record>, bound: int)
  {
    var k := FirstBelow(s, bound);
    st == (if k == |s| then State(None, None) else State(Some(s[k + 1..]), Some(s[k])))
  }

  /** A run of windows, newest first, each ending where the previous one began. */
  ghost predicate Consecutive(ws: seq<Window>)
  {
    (forall i :: 0 <= i < |ws| ==> ws[i].ts < ws[i].next) &&
    (forall i :: 0 <= i < |ws| - 1 ==> ws[i + 1].next == ws[i].ts)
  }

  /** The calls of `save_data_to_path` for the windows `ws` in order, each with `newCrawl` as
      what a new crawl would yield. */
  function Run(st: State, newCrawl: seq<Record>, ws: seq<Window>): (p: Pulled)
    requires Valid(st)
    ensures Valid(p.state)
    decreases |ws|
  {
    if ws == [] then Pulled([], st)
    else
      var p := Step(st, newCrawl, ws[0].ts, ws[0].next);
      var r := Run(p.state, newCrawl, ws[1..]);
      Pulled(p.written + r.written, r.state)
  }

  /** The calls of `save_data_to_path` as the source writes them, for the windows `ws` in order. */
  function RunAsWritten(st: State, newCrawl: seq<Record>, ws: seq<Window>): (p: Pulled)
    requires Valid(st)
    ensures Valid(p.state)
    ensures ws != [] && Reuse(st, ws[0].ts) ==> p.written != [] && p.written[0] == st.lastTweet.value
    decreases |ws|
  {
    if ws == [] then Pulled([], st)
    else
      var p := StepAsWritten(st, newCrawl, ws[0].ts, ws[0].next);
      var r := RunAsWritten(p.state, newCrawl, ws[1..]);
      Pulled(p.written + r.written, r.state)
  }

  lemma ConsecutiveTail(ws: seq<Window>)
    requires |ws| > 1
    ensures Consecutive(ws) ==> Consecutive(ws[1..]) && ws[1].next == ws[0].ts
  {
    if Consecutive(ws) {
      forall i | 0 <= i < |ws[1..]| - 1
        ensures ws[1..][i + 1].next == ws[1..][i].ts
      {
        assert ws[1..][i + 1] == ws[i + 2] && ws[1..][i] == ws[i + 1];
      }
    }
  }

  /** Consecutive windows stack downwards. */
  lemma {:induction false} ConsecutiveBounds(ws: seq<Window>)
    requires ws != []
    ensures Consecutive(ws) ==> ws[|ws| - 1].ts <= ws[0].ts && ws[|ws| - 1].next <= ws[0].next
    decreases |ws|
  {
    if |ws| > 1 && Consecutive(ws) {
      ConsecutiveTail(ws);
      ConsecutiveBounds(ws[1..]);
      assert ws[1..][|ws[1..]| - 1] == ws[|ws| - 1];
      assert ws[1..][0] == ws[1];
    }
  }

  lemma {:induction false} InWindowAppend(a: seq<Record>, b: seq<Record>, lo: int, hi: int)
    ensures InWindow(a + b, lo, hi) == InWindow(a, lo, hi) + InWindow(b, lo, hi)
  {
    if a == [] {
      assert a + b == b;
    } else {
      assert (a + b)[1..] == a[1..] + b;
      InWindowAppend(a[1..], b, lo, hi);
    }
  }

  /** A tweet of `s` is in the window's output exactly as often as in `s` when it falls in
      the window, and never otherwise. */
  lemma {:induction false} InWindowCount(s: seq<Record>, lo: int, hi: int, x: Record)
    ensures multiset(InWindow(s, lo, hi))[x] == if lo <= x.createdTs < hi then multiset(s)[x] else 0
  {
    if s != [] {
      InWindowCount(s[1..], lo, hi, x);
      assert s == [s[0]] + s[1..];
    }
  }

  lemma {:induction false} InWindowEmpty(s: seq<Record>, lo: int, hi: int)
    requires forall i :: 0 <= i < |s| ==> s[i].createdTs < lo
    ensures InWindow(s, lo, hi) == []
  {
    if s != [] {
      InWindowEmpty(s[1..], lo, hi);
    }
  }

  lemma SplitAt(s: seq<Record>, k: nat)
    requires k <= |s|
    ensures s[..k] + s[k..] == s
  {
  }

  lemma NonIncreasingTail(s: seq<Record>, m: nat)
    requires NonIncreasing(s) && m <= |s|
    ensures NonIncreasing(s[m..])
  {
    forall i, j | 0 <= i < j < |s[m..]|
      ensures s[m..][j].createdTs <= s[m..][i].createdTs
    {
      assert s[m..][j] == s[m + j] && s[m..][i] == s[m + i];
    }
  }

  /** On tweets that come newest first, the window `[lo, hi)` is the window `[mid, hi)`
      followed by the window `[lo, mid)`. */
  lemma {:induction false} InWindowSplit(s: seq<Record>, lo: int, mid: int, hi: int)
    requires NonIncreasing(s) && lo <= mid <= hi
    ensures InWindow(s, mid, hi) + InWindow(s, lo, mid) == InWindow(s, lo, hi)
  {
    if s != [] {
      NonIncreasingTail(s, 1);
      InWindowSplit(s[1..], lo, mid, hi);
      if lo <= s[0].createdTs < mid {
        forall i | 0 <= i < |s[1..]|
          ensures s[1..][i].createdTs < mid
        {
          assert s[1..][i] == s[i + 1];
        }
        InWindowEmpty(s[1..], mid, hi);
      }
    }
  }

  /** A crawl that begins with tweets all at or after `bound` reaches its first older tweet
      after them. */
  lemma {:induction false} FirstBelowShift(s: seq<Record>, m: nat, bound: int)
    requires m <= |s|
    requires forall j :: 0 <= j < m ==> s[j].createdTs >= bound
    ensures FirstBelow(s, bound) == m + FirstBelow(s[m..], bound)
    decreases m
  {
    if m > 0 {
      assert s[1..][m - 1..] == s[m..];
      FirstBelowShift(s[1..], m - 1, bound);
    }
  }

  /** What the loop writes: the tweets before the first one older than `ts` that are not at
      or after `ts_next`. */
  lemma {:induction false} PullWritten(s: seq<Record>, ts: int, tsNext: int)
    requires ts <= tsNext
    ensures Pull(s, ts, tsNext).written == InWindow(s[..FirstBelow(s, ts)], ts, tsNext)
  {
    if s != [] {
      PullWritten(s[1..], ts, tsNext);
      if s[0].createdTs >= ts {
        var k := FirstBelow(s[1..], ts);
        assert s[..1 + k][1..] == s[1..][..k];
      } else {
        assert s[..0] == [];
      }
    }
  }

  /** A cursor parked in `s[m..]` is parked in `s` when the first `m` tweets are not older
      than the bound. */
  lemma ResumableShift(st: State, s: seq<Record>, m: nat, bound: int)
    requires m <= |s|
    requires forall j :: 0 <= j < m ==> s[j].createdTs >= bound
    requires Resumable(st, s[m..], bound)
    ensures Resumable(st, s, bound)
  {
    FirstBelowShift(s, m, bound);
    var k := FirstBelow(s[m..], bound);
    if k < |s[m..]| {
      assert s[m..][k + 1..] == s[m + k + 1..];
      assert s[m..][k] == s[m + k];
    }
  }

  /** Where the loop parks: just past the first tweet older than `ts`. */
  lemma {:induction false} PullParks(s: seq<Record>, ts: int, tsNext: int)
    requires ts <= tsNext
    ensures Resumable(Pull(s, ts, tsNext).state, s, ts)
  {
    if s != [] && s[0].createdTs >= ts {
      PullParks(s[1..], ts, tsNext);
      ResumableShift(Pull(s, ts, tsNext).state, s, 1, ts);
    }
  }

  /** On tweets that come newest first, a pull from the start writes exactly the window. */
  lemma PullWindow(s: seq<Record>, ts: int, tsNext: int)
    requires NonIncreasing(s) && ts <= tsNext
    ensures Pull(s, ts, tsNext).written == InWindow(s, ts, tsNext)
  {
    PullWritten(s, ts, tsNext);
    var k := FirstBelow(s, ts);
    var head, tail := s[..k], s[k..];
    SplitAt(s, k);
    InWindowAppend(head, tail, ts, tsNext);
    forall i | 0 <= i < |tail|
      ensures tail[i].createdTs < ts
    {
      assert tail[i] == s[k + i];
      if i > 0 {
        assert s[k + i].createdTs <= s[k].createdTs;
      }
    }
    InWindowEmpty(tail, ts, tsNext);
    assert InWindow(head, ts, tsNext) + [] == InWindow(head, ts, tsNext);
  }

  /** The window, read from the tweet the cursor is parked on when every earlier tweet is at
      or after `ts_next`. */
  lemma WindowFromParked(s: seq<Record>, k: nat, ts: int, tsNext: int)
    requires k < |s|
    requires forall j :: 0 <= j < k ==> s[j].createdTs >= tsNext
    ensures InWindow(s, ts, tsNext) ==
      (if ts <= s[k].createdTs < tsNext then [s[k]] else []) + InWindow(s[k + 1..], ts, tsNext)
  {
    assert s == s[..k] + ([s[k]] + s[k + 1..]);
    InWindowAppend(s[..k], [s[k]] + s[k + 1..], ts, tsNext);
    InWindowAppend([s[k]], s[k + 1..], ts, tsNext);
    assert [s[k]][1..] == [];
    forall i | 0 <= i < |s[..k]|
      ensures s[..k][i].createdTs >= tsNext
    {
      assert s[..k][i] == s[i];
    }
    InWindowAbove(s[..k], ts, tsNext);
  }

  /** One call, from a cursor with no crawler or from one parked at a bound at or after
      `ts_next`, writes exactly the tweets of the window: a carried tweet in the gap above
      `ts_next` is dropped, and the pull skips the rest of that gap. */
  lemma StepWritten(st: State, s: seq<Record>, ts: int, tsNext: int, bound: int)
    requires NonIncreasing(s) && ts < tsNext <= bound
    requires (Valid(st) && st.crawler.None?) || Resumable(st, s, bound)
    ensures Step(st, s, ts, tsNext).written == InWindow(s, ts, tsNext)
  {
    if Reuse(st, ts) {
      var k := FirstBelow(s, bound);
      var rest := s[k + 1..];
      assert k < |s| && st.lastTweet.value == s[k] && st.crawler.value == rest;
      NonIncreasingTail(s, k + 1);
      PullWindow(rest, ts, tsNext);
      WindowFromParked(s, k, ts, tsNext);
    } else {
      PullWindow(s, ts, tsNext);
    }
  }

  /** Such a call leaves the cursor parked at `ts`. */
  lemma StepParks(st: State, s: seq<Record>, ts: int, tsNext: int, bound: int)
    requires ts < tsNext <= bound
    requires (Valid(st) && st.crawler.None?) || Resumable(st, s, bound)
    ensures Resumable(Step(st, s, ts, tsNext).state, s, ts)
  {
    if Reuse(st, ts) {
      var k := FirstBelow(s, bound);
      var rest := s[k + 1..];
      assert k < |s| && st.lastTweet.value == s[k] && st.crawler.value == rest;
      PullParks(rest, ts, tsNext);
      ResumableShift(Pull(rest, ts, tsNext).state, s, k + 1, ts);
    } else {
      PullParks(s, ts, tsNext);
    }
  }

  lemma {:induction false} InWindowAbove(s: seq<Record>, lo: int, hi: int)
    requires forall i :: 0 <= i < |s| ==> s[i].createdTs >= hi
    ensures InWindow(s, lo, hi) == []
  {
    if s != [] {
      InWindowAbove(s[1..], lo, hi);
    }
  }

  /** Over a run of consecutive windows, newest first, the calls together write each tweet of
      the whole span exactly once, in crawl order, and leave the cursor parked at its bottom. */
  lemma {:induction false} RunPartition(st: State, s: seq<Record>, ws: seq<Window>)
    requires NonIncreasing(s) && ws != [] && Consecutive(ws)
    requires (Valid(st) && st.crawler.None?) || Resumable(st, s, ws[0].next)
    ensures Valid(st)
    ensures Run(st, s, ws).written == InWindow(s, ws[|ws| - 1].ts, ws[0].next)
    ensures Resumable(Run(st, s, ws).state, s, ws[|ws| - 1].ts)
    decreases |ws|
  {
    StepWritten(st, s, ws[0].ts, ws[0].next, ws[0].next);
    StepParks(st, s, ws[0].ts, ws[0].next, ws[0].next);
    var p := Step(st, s, ws[0].ts, ws[0].next);
    if |ws| == 1 {
      assert Run(p.state, s, ws[1..]) == Pulled([], p.state);
    } else {
      ConsecutiveTail(ws);
      RunPartition(p.state, s, ws[1..]);
      assert ws[1..][|ws[1..]| - 1] == ws[|ws| - 1];
      ConsecutiveBounds(ws[1..]);
      InWindowSplit(s, ws[|ws| - 1].ts, ws[0].ts, ws[0].next);
    }
  }

  /** From a cursor with no crawler, or one parked at `ts_next`, the call as written and the
      corrected call agree: the carried tweet is then older than `ts_next`. */
  lemma StepAsWrittenAgrees(st: State, s: seq<Record>, ts: int, tsNext: int)
    requires (Valid(st) && st.crawler.None?) || Resumable(st, s, tsNext)
    ensures StepAsWritten(st, s, ts, tsNext) == Step(st, s, ts, tsNext)
  {
    if Reuse(st, ts) {
      var k := FirstBelow(s, tsNext);
      assert k < |s| && st.lastTweet.value == s[k];
    }
  }

  /** Over consecutive windows from a fresh or parked cursor the source as written behaves as
      the corrected model: the leak needs a gap between two windows. */
  lemma {:induction false} RunAsWrittenAgrees(st: State, s: seq<Record>, ws: seq<Window>)
    requires ws != [] && Consecutive(ws)
    requires (Valid(st) && st.crawler.None?) || Resumable(st, s, ws[0].next)
    ensures Valid(st) && RunAsWritten(st, s, ws) == Run(st, s, ws)
    decreases |ws|
  {
    StepAsWrittenAgrees(st, s, ws[0].ts, ws[0].next);
    StepParks(st, s, ws[0].ts, ws[0].next, ws[0].next);
    var p := Step(st, s, ws[0].ts, ws[0].next);
    if |ws| > 1 {
      ConsecutiveTail(ws);
      RunAsWrittenAgrees(p.state, s, ws[1..]);
    }
  }

  /** Hence the partition holds for the source as written over consecutive windows. */
  lemma RunAsWrittenPartition(s: seq<Record>, ws: seq<Window>)
    requires NonIncreasing(s) && ws != [] && Consecutive(ws)
    ensures RunAsWritten(State(None, None), s, ws).written == InWindow(s, ws[|ws| - 1].ts, ws[0].next)
  {
    RunAsWrittenAgrees(State(None, None), s, ws);
    RunPartition(State(None, None), s, ws);
  }

  /** The partition stated per tweet: every tweet of the crawl created in the span is written
      as many times as the crawl holds it, and no other tweet is written. */
  lemma RunExactlyOnce(s: seq<Record>, ws: seq<Window>, x: Record)
    requires NonIncreasing(s) && ws != [] && Consecutive(ws)
    ensures multiset(Run(State(None, None), s, ws).written)[x] ==
            if ws[|ws| - 1].ts <= x.createdTs < ws[0].next then multiset(s)[x] else 0
  {
    RunPartition(State(None, None), s, ws);
    InWindowCount(s, ws[|ws| - 1].ts, ws[0].next, x);
  }

  /** Windows newest first, each ending at or before the start of the newer one, with gaps
      allowed between them (the instants already catalogued). */
  ghost predicate Descending(ws: seq<Window>)
  {
    (forall i :: 0 <= i < |ws| ==> ws[i].ts < ws[i].next) &&
    (forall i :: 0 <= i < |ws| - 1 ==> ws[i + 1].next <= ws[i].ts)
  }

  /** The windows' tweets, window after window. */
  function Partitions(s: seq<Record>, ws: seq<Window>): seq<Record>
  {
    if ws == [] then [] else InWindow(s, ws[0].ts, ws[0].next) + Partitions(s, ws[1..])
  }

  lemma DescendingTail(ws: seq<Window>)
    requires |ws| > 1 && Descending(ws)
    ensures Descending(ws[1..]) && ws[1].next <= ws[0].ts
  {
    forall i | 0 <= i < |ws[1..]| - 1
      ensures ws[1..][i + 1].next <= ws[1..][i].ts
    {
      assert ws[1..][i + 1] == ws[i + 2] && ws[1..][i] == ws[i + 1];
    }
  }

  /** Every older window of a descending run ends at or before the newest one starts. */
  lemma {:induction false} DescendingBelow(ws: seq<Window>)
    requires Descending(ws)
    ensures forall j :: 1 <= j < |ws| ==> ws[j].next <= ws[0].ts
    decreases |ws|
  {
    if |ws| > 1 {
      DescendingTail(ws);
      DescendingBelow(ws[1..]);
      forall j | 1 <= j < |ws|
        ensures ws[j].next <= ws[0].ts
      {
        if j > 1 {
          assert ws[1..][j - 1] == ws[j] && ws[1..][0] == ws[1];
        }
      }
    }
  }

  lemma DescendingPrefix(ws: seq<Window>, n: nat)
    requires n <= |ws| && Descending(ws)
    ensures Descending(ws[..n])
  {
    forall i | 0 <= i < n - 1
      ensures ws[..n][i + 1].next <= ws[..n][i].ts
    {
      assert ws[..n][i + 1] == ws[i + 1] && ws[..n][i] == ws[i];
    }
  }

  /** Over descending windows, from a cursor with no crawler or one parked at or above the
      newest window's end, the calls write each window's tweets in turn and park at the
      oldest window's start. */
  lemma {:induction false} RunDescending(st: State, s: seq<Record>, ws: seq<Window>, bound: int)
    requires NonIncreasing(s) && ws != [] && Descending(ws) && ws[0].next <= bound
    requires (Valid(st) && st.crawler.None?) || Resumable(st, s, bound)
    ensures Valid(st)
    ensures Run(st, s, ws).written == Partitions(s, ws)
    ensures Resumable(Run(st, s, ws).state, s, ws[|ws| - 1].ts)
    decreases |ws|
  {
    StepWritten(st, s, ws[0].ts, ws[0].next, bound);
    StepParks(st, s, ws[0].ts, ws[0].next, bound);
    var p := Step(st, s, ws[0].ts, ws[0].next);
    var r := Run(p.state, s, ws[1..]);
    assert Run(st, s, ws) == Pulled(p.written + r.written, r.state);
    assert Partitions(s, ws) == InWindow(s, ws[0].ts, ws[0].next) + Partitions(s, ws[1..]);
    if |ws| == 1 {
      assert r == Pulled([], p.state);
      assert Partitions(s, ws[1..]) == [];
    } else {
      DescendingTail(ws);
      assert ws[1..][0].next <= ws[0].ts;
      RunDescending(p.state, s, ws[1..], ws[0].ts);
      assert ws[1..][|ws[1..]| - 1] == ws[|ws| - 1];
    }
  }

  /** Each call of a run over descending windows from a fresh cursor writes exactly its own
      window, whatever gaps lie between the windows. */
  lemma RunDescendingStep(s: seq<Record>, ws: seq<Window>, i: nat)
    requires NonIncreasing(s) && Descending(ws) && i < |ws|
    ensures Step(Run(State(None, None), s, ws[..i]).state, s, ws[i].ts, ws[i].next).written ==
            InWindow(s, ws[i].ts, ws[i].next)
  {
    if i == 0 {
      assert ws[..0] == [];
      StepWritten(State(None, None), s, ws[0].ts, ws[0].next, ws[0].next);
    } else {
      DescendingPrefix(ws, i);
      assert ws[..i][0] == ws[0] && ws[..i][i - 1] == ws[i - 1];
      RunDescending(State(None, None), s, ws[..i], ws[0].next);
      StepWritten(Run(State(None, None), s, ws[..i]).state, s, ws[i].ts, ws[i].next, ws[i - 1].ts);
    }
  }

  /** The windows' output holds every tweet of the crawl that falls in one of them as often as
      the crawl does, and no other tweet. */
  lemma {:induction false} PartitionsCount(s: seq<Record>, ws: seq<Window>, x: Record)
    requires Descending(ws)
    ensures multiset(Partitions(s, ws))[x] ==
            if exists i :: 0 <= i < |ws| && ws[i].ts <= x.createdTs < ws[i].next then multiset(s)[x] else 0
    decreases |ws|
  {
    if ws != [] {
      InWindowCount(s, ws[0].ts, ws[0].next, x);
      if |ws| > 1 {
        DescendingTail(ws);
      }
      DescendingBelow(ws);
      PartitionsCount(s, ws[1..], x);
      if exists i :: 0 <= i < |ws[1..]| && ws[1..][i].ts <= x.createdTs < ws[1..][i].next {
        var i :| 0 <= i < |ws[1..]| && ws[1..][i].ts <= x.createdTs < ws[1..][i].next;
        assert ws[1..][i] == ws[i + 1];
      }
      if exists i :: 0 <= i < |ws| && ws[i].ts <= x.createdTs < ws[i].next {
        var i :| 0 <= i < |ws| && ws[i].ts <= x.createdTs < ws[i].next;
        if i > 0 {
          assert ws[1..][i - 1] == ws[i];
        }
      }
    }
  }
}
