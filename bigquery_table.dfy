/** `BigQueryTableSensor`: registers the tables of a BigQuery dataset whose ids carry a
    timestamp after an optional prefix, each table considered once per sensor process. */
module BigQueryTable {
  import opened Wrappers
  import opened Text
  import opened Catalog

  /** Python's `s[n:]`. */
  function Drop(s: string, n: nat): (r: string)
    ensures n <= |s| ==> s == s[..n] + r
    ensures n > |s| ==> r == []
  {
    if n <= |s| then s[n..] else []
  }

  /** Every table offer in `offers`, as a set of table ids. */
  function Loads(offers: seq<Offer<string>>): set<string>
  {
    if offers == [] then {} else Loads(offers[..|offers| - 1]) + {offers[|offers| - 1].loadInfo}
  }

  class BigQueryTableSensor {
    const project: string
    const dataset: string
    const prefix: Option<string>
    const precision: string
    const lockingSeconds: int
    /** `max_instance_age_seconds` of the sensor's base configuration. */
    const maxInstanceAgeSeconds: Option<int>
    /** `strptime(portion, instance_ts_format)`: the instant a table-id suffix encodes, if any. */
    const parse: string -> Option<int>
    /** `str(datetime)` of an instant. */
    const render: int -> string

    /** Every table id considered so far. */
    var knownContents: set<string>

    /** Locking defaults to 30 seconds, and nothing is known yet. */
    constructor(project: string, dataset: string, prefix: Option<string>, precision: string,
                lockingSeconds: Option<int>, maxInstanceAgeSeconds: Option<int>,
                parse: string -> Option<int>, render: int -> string)
      ensures this.project == project && this.dataset == dataset && this.prefix == prefix
      ensures this.precision == precision && this.maxInstanceAgeSeconds == maxInstanceAgeSeconds
      ensures this.parse == parse && this.render == render
      ensures this.lockingSeconds == if lockingSeconds.Some? then lockingSeconds.value else 30
      ensures knownContents == {}
    {
      this.project := project;
      this.dataset := dataset;
      this.prefix := prefix;
      this.precision := precision;
      this.lockingSeconds := if lockingSeconds.Some? then lockingSeconds.value else 30;
      this.maxInstanceAgeSeconds := maxInstanceAgeSeconds;
      this.parse := parse;
      this.render := render;
      knownContents := {};
    }

    /** Whether a table id is monitored: there is no prefix, or the id starts with it. */
    predicate Watched(table: string)
    {
      prefix.None? || StartsWith(table, prefix.value)
    }

    /** `find_monitored_tables` over the ids `list_tables` returns. */
    method FindMonitoredTables(tables: seq<string>) returns (monitored: set<string>)
      ensures forall t :: t in monitored <==> t in tables && Watched(t)
    {
      monitored := {};
      for i := 0 to |tables|
        invariant forall t :: t in monitored <==> t in tables[..i] && Watched(t)
      {
        assert tables[..i + 1] == tables[..i] + [tables[i]];
        if prefix.None? || StartsWith(tables[i], prefix.value) {
          monitored := monitored + {tables[i]};
        }
      }
      assert tables[..|tables|] == tables;
    }

    /** The part of the id after the prefix (all of it without one), which holds the time. */
    function Suffix(table: string): (portion: string)
      ensures Watched(table) && prefix.Some? ==> table == prefix.value + portion
      ensures prefix.None? ==> portion == table
    {
      Drop(table, if prefix.None? then 0 else |prefix.value|)
    }

    /** What one considered table yields: nothing when its suffix does not parse or, with a
        maximum age, when its instant is older than `round_now` minus that age; otherwise
        the table with its instant and its `bq://project/dataset/table` URI. */
    function Consider(table: string, roundNow: int): Option<Offer<string>>
    {
      var ts := parse(Suffix(table));
      if ts.None? then None
      else if maxInstanceAgeSeconds.Some? && ts.value < roundNow - maxInstanceAgeSeconds.value then None
      else Some(Offer(table, DatasetSpec(None, Some(render(ts.value)), precision, lockingSeconds,
                                         Some("bq://" + project + "/" + dataset + "/" + table))))
    }

    /** `get_new_datasetspecs` over the listing `tables` at `round_now`, run to the end: the
        monitored tables not yet known are each marked known, then offered when `Consider`
        keeps them, in an unspecified order and each at most once. The catalogued `datasets`
        play no part. A second call over the same listing offers nothing. */
    method GetNewDatasetSpecs(tables: seq<string>, datasets: seq<Dataset>, roundNow: int)
      returns (offers: seq<Offer<string>>)
      modifies this
      ensures knownContents == old(knownContents) + (set t | t in tables && Watched(t))
      ensures Loads(offers) == set t | t in tables && Watched(t) && t !in old(knownContents) && Consider(t, roundNow).Some?
      ensures forall i, j :: 0 <= i < j < |offers| ==> offers[i].loadInfo != offers[j].loadInfo
      ensures forall i :: 0 <= i < |offers| ==> Consider(offers[i].loadInfo, roundNow) == Some(offers[i])
      ensures (forall t :: t in tables && Watched(t) ==> t in old(knownContents)) ==> offers == []
    {
      var monitored := FindMonitoredTables(tables);
      var newTables := monitored - knownContents;
      var remaining := newTables;
      ghost var considered: set<string> := {};
      offers := [];
      while remaining != {}
        invariant remaining !! considered && remaining + considered == newTables
        invariant knownContents == old(knownContents) + considered
        invariant Offered(considered, offers, roundNow)
        decreases remaining
      {
        var table :| table in remaining;
        remaining := remaining - {table};
        knownContents := knownContents + {table};
        var o := Consider(table, roundNow);
        OfferedStep(considered, offers, table, o, roundNow);
        considered := considered + {table};
        if o.Some? {
          offers := offers + [o.value];
        }
      }
      KeptAll(tables, old(knownContents), considered, roundNow);
    }

    /** What `Consider` yields, and when. */
    lemma ConsiderSpec(table: string, roundNow: int)
      ensures Consider(table, roundNow).Some? <==>
        parse(Suffix(table)).Some? &&
        (maxInstanceAgeSeconds.None? || parse(Suffix(table)).value >= roundNow - maxInstanceAgeSeconds.value)
      ensures Consider(table, roundNow).Some? ==>
        Consider(table, roundNow).value.loadInfo == table &&
        Consider(table, roundNow).value.spec == DatasetSpec(None, Some(render(parse(Suffix(table)).value)), precision, lockingSeconds,
                                    Some("bq://" + project + "/" + dataset + "/" + table))
    {
    }

    /** The considered tables that `Consider` keeps. */
    ghost function Kept(considered: set<string>, roundNow: int): set<string>
    {
      set t | t in considered && Consider(t, roundNow).Some?
    }

    /** What the offers made so far say about the tables considered so far: exactly the
        kept ones are offered, each once and as `Consider` makes it. */
    ghost predicate Offered(considered: set<string>, offers: seq<Offer<string>>, roundNow: int)
    {
      && Loads(offers) == Kept(considered, roundNow)
      && (forall i :: 0 <= i < |offers| ==> offers[i].loadInfo in considered)
      && (forall i, j :: 0 <= i < j < |offers| ==> offers[i].loadInfo != offers[j].loadInfo)
      && (forall i :: 0 <= i < |offers| ==> Consider(offers[i].loadInfo, roundNow) == Some(offers[i]))
    }

    /** Considering one more table keeps `Offered`. */
    lemma OfferedStep(considered: set<string>, offers: seq<Offer<string>>, table: string,
                      o: Option<Offer<string>>, roundNow: int)
      requires Offered(considered, offers, roundNow) && table !in considered
      requires o == Consider(table, roundNow)
      ensures Offered(considered + {table}, offers + (if o.Some? then [o.value] else []), roundNow)
    {
      KeptAdd(considered, table, roundNow);
      if o.Some? {
        LoadsAppend(offers, o.value);
      } else {
        assert offers + [] == offers;
      }
    }

    lemma KeptAdd(considered: set<string>, table: string, roundNow: int)
      ensures Kept(considered + {table}, roundNow) ==
        Kept(considered, roundNow) + (if Consider(table, roundNow).Some? then {table} else {})
    {
    }

    lemma KeptAll(tables: seq<string>, known: set<string>, considered: set<string>, roundNow: int)
      requires forall t :: t in considered <==> t in tables && Watched(t) && t !in known
      ensures Kept(considered, roundNow) ==
        set t | t in tables && Watched(t) && t !in known && Consider(t, roundNow).Some?
    {
    }
  }

  /** Offering one more table adds its id. */
  lemma LoadsAppend(offers: seq<Offer<string>>, o: Offer<string>)
    ensures Loads(offers + [o]) == Loads(offers) + {o.loadInfo}
  {
    assert (offers + [o])[..|offers|] == offers;
  }
}
