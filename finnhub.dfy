/** `FinnhubSensor`: the stock candles of each configured ticker over one cron window,
    transposed from the API's columns into one JSON row per tick and loaded into BigQuery
    with a fixed schema. */
module Finnhub {
  import opened Wrappers
  import opened Schedule

  /** A JSON value of a candle response or of a written row. */
  datatype Cell = Text(s: string) | Number(x: real)

  /** A `stock_candles` response: its status `s`, and its other keys, each with a list. */
  datatype Candles = Candles(status: string, columns: map<string, seq<Cell>>)

  /** One `stock_candles(ticker, 1, min_ts, max_ts)` call. */
  datatype Query = Query(ticker: string, minTs: int, maxTs: int)

  /** One row: a JSON object. */
  type Tick = map<string, Cell>

  datatype Field = Field(name: string, fieldType: string, required: bool)

  /** The `bquri.load_file` call: the target, the newline-delimited rows and the schema. */
  datatype BqLoad = BqLoad(uri: string, rows: seq<Tick>, schema: seq<Field>)

  const IndexError := "IndexError: list index out of range"

  /** Whether every column has an element at each index below `n`. */
  predicate Reaches(columns: map<string, seq<Cell>>, n: nat)
  {
    forall k :: k in columns ==> n <= |columns[k]|
  }

  /** `{k: res[k][i] for k in keys}` with `ticker` set afterwards. */
  function TickAt(ticker: string, columns: map<string, seq<Cell>>, i: nat): (d: Tick)
    requires Reaches(columns, i + 1)
    ensures d.Keys == columns.Keys + {"ticker"} && d["ticker"] == Text(ticker)
    ensures forall k :: k in columns && k != "ticker" ==> d[k] == columns[k][i]
  {
    (map k | k in columns :: columns[k][i])["ticker" := Text(ticker)]
  }

  /** What `crawl(ticker, ...)` yields for the response `res`: nothing on `no_data`; an
      exception on any other status but `ok`; otherwise one row per element of `t`, row `i`
      mapping every key but `s` to its `i`-th element and `ticker` to the ticker. A response
      without `t`, or with a list shorter than `t`, raises the lookup error. */
  function Ticks(ticker: string, res: Candles): (r: Result<seq<Tick>, string>)
    ensures res.status == "no_data" ==> r == Success([])
    ensures res.status != "no_data" && res.status != "ok" ==>
      r == Failure("Exception: Finnhub has error with message " + res.status)
    ensures res.status == "ok" ==>
      (r.Success? <==> "t" in res.columns && Reaches(res.columns, |res.columns["t"]|))
    ensures res.status == "ok" && r.Success? ==>
      |r.value| == |res.columns["t"]| &&
      forall i :: 0 <= i < |r.value| ==>
        r.value[i].Keys == res.columns.Keys + {"ticker"} && r.value[i]["ticker"] == Text(ticker) &&
        forall k :: k in res.columns && k != "ticker" ==> r.value[i][k] == res.columns[k][i]
  {
    if res.status == "no_data" then Success([])
    else if res.status != "ok" then Failure("Exception: Finnhub has error with message " + res.status)
    else if "t" !in res.columns then Failure("KeyError: 't'")
    else
      var n := |res.columns["t"]|;
      if !Reaches(res.columns, n) then Failure(IndexError)
      else Success(seq(n, i requires 0 <= i < n => TickAt(ticker, res.columns, i)))
  }

  /** `crawl` run to the end on the response: the `for i in range(len(res['t']))` loop,
      raising at the first index some list does not reach. */
  method Crawl(ticker: string, res: Candles) returns (r: Result<seq<Tick>, string>)
    ensures r == Ticks(ticker, res)
  {
    if res.status == "no_data" {
      return Success([]);
    }
    if res.status != "ok" {
      return Failure("Exception: Finnhub has error with message " + res.status);
    }
    if "t" !in res.columns {
      return Failure("KeyError: 't'");
    }
    var n := |res.columns["t"]|;
    var rows: seq<Tick> := [];
    for i := 0 to n
      invariant Reaches(res.columns, i)
      invariant |rows| == i && forall j :: 0 <= j < i ==> rows[j] == TickAt(ticker, res.columns, j)
    {
      if exists k :: k in res.columns && |res.columns[k]| <= i {
        return Failure(IndexError);
      }
      var d := map k | k in res.columns :: res.columns[k][i];
      d := d["ticker" := Text(ticker)];
      assert d == TickAt(ticker, res.columns, i);
      rows := rows + [d];
    }
    assert rows == seq(n, i requires 0 <= i < n => TickAt(ticker, res.columns, i));
    return Success(rows);
  }

  /** The queries made and the rows written, ticker by ticker in the configured order, up to
      the first ticker whose `crawl` raises. */
  datatype Pulled = Pulled(queries: seq<Query>, rows: Result<seq<Tick>, string>)

  /** The `for ticker in self.tickers` loop over the window `[lo, hi]`. */
  function PullAll(api: Query -> Candles, tickers: seq<string>, lo: int, hi: int): Pulled
  {
    if tickers == [] then Pulled([], Success([]))
    else
      var q := Query(tickers[0], lo, hi);
      var t := Ticks(tickers[0], api(q));
      if t.Failure? then Pulled([q], Failure(t.error))
      else
        var rest := PullAll(api, tickers[1..], lo, hi);
        Pulled([q] + rest.queries, if rest.rows.Failure? then rest.rows else Success(t.value + rest.rows.value))
  }

  /** The rows of one ticker. */
  function TickerTicks(api: Query -> Candles, ticker: string, lo: int, hi: int): Result<seq<Tick>, string>
  {
    Ticks(ticker, api(Query(ticker, lo, hi)))
  }

  /** The position of the first ticker whose `crawl` raises, or the number of tickers. */
  function FirstRaising(api: Query -> Candles, tickers: seq<string>, lo: int, hi: int): (k: nat)
    ensures k <= |tickers|
    ensures forall i :: 0 <= i < k ==> TickerTicks(api, tickers[i], lo, hi).Success?
    ensures k < |tickers| ==> TickerTicks(api, tickers[k], lo, hi).Failure?
  {
    if tickers == [] || TickerTicks(api, tickers[0], lo, hi).Failure? then 0
    else 1 + FirstRaising(api, tickers[1..], lo, hi)
  }

  /** The loop queries the tickers in order with the same bounds, and stops after the first
      one that raises, with its error; when none raises it queries all of them and writes
      the rows of each ticker, in order, one block after the other. */
  lemma {:induction false} PullAllSpec(api: Query -> Candles, tickers: seq<string>, lo: int, hi: int)
    ensures var p := PullAll(api, tickers, lo, hi);
      var k := FirstRaising(api, tickers, lo, hi);
      (p.rows.Success? <==> k == |tickers|) &&
      |p.queries| == (if k < |tickers| then k + 1 else k) &&
      (forall i :: 0 <= i < |p.queries| ==> p.queries[i] == Query(tickers[i], lo, hi)) &&
      (p.rows.Failure? ==> p.rows.error == TickerTicks(api, tickers[k], lo, hi).error)
    decreases |tickers|
  {
    if tickers != [] && TickerTicks(api, tickers[0], lo, hi).Success? {
      var rest := tickers[1..];
      PullAllSpec(api, rest, lo, hi);
      var p := PullAll(api, tickers, lo, hi);
      var pr := PullAll(api, rest, lo, hi);
      assert p.queries == [Query(tickers[0], lo, hi)] + pr.queries;
      forall i | 0 <= i < |p.queries| ensures p.queries[i] == Query(tickers[i], lo, hi) {
        if i > 0 {
          assert p.queries[i] == pr.queries[i - 1] && tickers[i] == rest[i - 1];
        }
      }
      if p.rows.Failure? {
        assert tickers[FirstRaising(api, tickers, lo, hi)] == rest[FirstRaising(api, rest, lo, hi)];
      }
    }
  }

  /** The tickers' rows come in blocks, in ticker order: pulling `a + b` writes the rows of
      `a` and then those of `b`. */
  lemma {:induction false} PullAllAppend(api: Query -> Candles, a: seq<string>, b: seq<string>, lo: int, hi: int)
    ensures var pa, pb := PullAll(api, a, lo, hi), PullAll(api, b, lo, hi);
      PullAll(api, a + b, lo, hi).rows ==
        if pa.rows.Failure? then pa.rows
        else if pb.rows.Failure? then pb.rows
        else Success(pa.rows.value + pb.rows.value)
    decreases |a|
  {
    if a == [] {
      assert a + b == b;
      var pb := PullAll(api, b, lo, hi);
      if pb.rows.Success? {
        assert [] + pb.rows.value == pb.rows.value;
      }
    } else {
      assert (a + b)[0] == a[0];
      assert (a + b)[1..] == a[1..] + b;
      PullAllAppend(api, a[1..], b, lo, hi);
      var t := Ticks(a[0], api(Query(a[0], lo, hi)));
      var pa, pb := PullAll(api, a[1..], lo, hi), PullAll(api, b, lo, hi);
      if t.Success? && pa.rows.Success? && pb.rows.Success? {
        assert t.value + (pa.rows.value + pb.rows.value) == t.value + pa.rows.value + pb.rows.value;
      }
    }
  }

  /** The load schema: `ticker` and `t` REQUIRED, the four prices and the volume NULLABLE. */
  function FinnhubSchema(): (s: seq<Field>)
    ensures |s| == 7
    ensures forall i :: 0 <= i < |s| ==> (s[i].required <==> s[i].name in {"ticker", "t"})
    ensures forall i, j :: 0 <= i < j < |s| ==> s[i].name != s[j].name
  {
    [Field("ticker", "string", true), Field("t", "int64", true), Field("v", "int64", false),
     Field("h", "float64", false), Field("l", "float64", false), Field("o", "float64", false),
     Field("c", "float64", false)]
  }

  class FinnhubSensor {
    const precision: string
    const cron: Cron
    const tickers: seq<string>
    const lookbackSeconds: int
    const lockingSeconds: int
    const delaySeconds: int

    /** The backfill horizon is one second short of `max_instance_age_seconds`; locking
        defaults to 600 seconds and the delay is 30 seconds. */
    constructor(precision: string, cron: Cron, tickers: seq<string>, maxInstanceAgeSeconds: int,
                lockingSeconds: Option<int>)
      ensures this.precision == precision && this.cron == cron && this.tickers == tickers
      ensures this.lookbackSeconds == maxInstanceAgeSeconds - 1
      ensures this.lockingSeconds == if lockingSeconds.Some? then lockingSeconds.value else 600
      ensures this.delaySeconds == 30
    {
      this.precision := precision;
      this.cron := cron;
      this.tickers := tickers;
      this.lookbackSeconds := maxInstanceAgeSeconds - 1;
      this.lockingSeconds := if lockingSeconds.Some? then lockingSeconds.value else 600;
      this.delaySeconds := 30;
    }

    /** `min_ts` and `max_ts` for the window starting at `ts`: its first second and the second
        before the next cron instant, an inclusive cover of exactly `[ts, next(ts))`. */
    function Bounds(ts: int): (int, int)
    {
      (ts, cron.next(ts) - 1)
    }

    /** A second is inside the queried bounds exactly when it falls in `[ts, next(ts))`. */
    lemma BoundsCover(ts: int, x: int)
      ensures Bounds(ts).0 <= x <= Bounds(ts).1 <==> ts <= x < cron.next(ts)
    {
    }

    /** `save_data_to_path(ts, uri)`: query every ticker over the window of `ts`, in order,
        and load all their rows into the table at `uri` with the fixed schema; a ticker whose
        `crawl` raises stops the loop and nothing is loaded. */
    method SaveDataToPath(api: Query -> Candles, ts: int, uri: string)
      returns (r: Result<BqLoad, string>, queries: seq<Query>)
      ensures var p := PullAll(api, tickers, Bounds(ts).0, Bounds(ts).1);
        queries == p.queries &&
        (p.rows.Failure? ==> r == Failure(p.rows.error)) &&
        (p.rows.Success? ==> r == Success(BqLoad(uri, p.rows.value, FinnhubSchema())))
    {
      var tsNext := cron.next(ts);
      var minTs := ts;
      var maxTs := tsNext - 1;
      ghost var goal := PullAll(api, tickers, minTs, maxTs);
      var lines: seq<Tick> := [];
      queries := [];
      AfterEmpty(goal);
      for i := 0 to |tickers|
        invariant goal == After(queries, lines, PullAll(api, tickers[i..], minTs, maxTs))
      {
        assert tickers[i..][1..] == tickers[i + 1..];
        var q := Query(tickers[i], minTs, maxTs);
        var ticks := Crawl(tickers[i], api(q));
        AfterAfter(queries, lines, q, ticks, PullAll(api, tickers[i + 1..], minTs, maxTs));
        queries := queries + [q];
        if ticks.Failure? {
          return Failure(ticks.error), queries;
        }
        lines := lines + ticks.value;
      }
      assert goal == After(queries, lines, Pulled([], Success([])));
      assert queries + [] == queries && lines + [] == lines;
      r := Success(BqLoad(uri, lines, FinnhubSchema()));
    }
  }

  /** What earlier tickers queried and wrote, followed by the rest of the loop. */
  function After(queries: seq<Query>, lines: seq<Tick>, p: Pulled): Pulled
  {
    Pulled(queries + p.queries, if p.rows.Failure? then p.rows else Success(lines + p.rows.value))
  }

  lemma AfterEmpty(p: Pulled)
    ensures After([], [], p) == p
  {
    assert [] + p.queries == p.queries;
    if p.rows.Success? {
      assert [] + p.rows.value == p.rows.value;
    }
  }

  /** One ticker of the loop, moved from the rest of the loop to what is done. */
  lemma AfterAfter(queries: seq<Query>, lines: seq<Tick>, q: Query, t: Result<seq<Tick>, string>, rest: Pulled)
    ensures After(queries, lines,
                  if t.Failure? then Pulled([q], Failure(t.error))
                  else Pulled([q] + rest.queries, if rest.rows.Failure? then rest.rows else Success(t.value + rest.rows.value)))
      == if t.Failure? then Pulled(queries + [q], Failure(t.error))
         else After(queries + [q], lines + t.value, rest)
  {
    assert queries + ([q] + rest.queries) == queries + [q] + rest.queries;
    if t.Success? && rest.rows.Success? {
      assert lines + (t.value + rest.rows.value) == lines + t.value + rest.rows.value;
    }
  }
}
