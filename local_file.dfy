/** `LocalFileSensor`: offers every regular file of a folder that is neither known nor
    catalogued, each under its own name as instance prefix, and uploads an offered file
    under the URI the orchestrator gives for it. */
module LocalFile {
  import opened Wrappers
  import opened Catalog

  /** One name of the folder listing and whether it names a regular file. */
  datatype Entry = Entry(name: string, isFile: bool)

  /** One `upload_file(source, target)` call. */
  datatype Upload = Upload(source: string, target: string)

  /** `find_monitored_files`: the names of the regular files, in listing order. */
  function MonitoredFiles(listing: seq<Entry>): (files: seq<string>)
    ensures |files| <= |listing|
    ensures forall f :: f in files <==> Entry(f, true) in listing
    decreases |listing|
  {
    if listing == [] then []
    else
      var rest := MonitoredFiles(listing[..|listing| - 1]);
      var last := listing[|listing| - 1];
      assert listing == listing[..|listing| - 1] + [last];
      if last.isFile then rest + [last.name] else rest
  }

  /** `matching_prefixes`: the instance prefixes of the catalogued datasets. */
  function Prefixes(datasets: seq<Dataset>): (ps: set<Option<string>>)
    ensures forall d :: d in datasets ==> d.instancePrefix in ps
    ensures forall p :: p in ps ==> exists d :: d in datasets && d.instancePrefix == p
  {
    set d | d in datasets :: d.instancePrefix
  }

  /** The files a pass over `files` offers: those neither in `known` nor catalogued, in order. */
  function NewFiles(files: seq<string>, known: set<string>, prefixes: set<Option<string>>): seq<string>
    decreases |files|
  {
    if files == [] then []
    else
      var f := files[|files| - 1];
      NewFiles(files[..|files| - 1], known, prefixes) + (if f !in known && Some(f) !in prefixes then [f] else [])
  }

  /** The files of `files` that a catalogued dataset matches, which a pass marks known. */
  function Matched(files: seq<string>, prefixes: set<Option<string>>): set<string>
    decreases |files|
  {
    if files == [] then {}
    else
      var f := files[|files| - 1];
      Matched(files[..|files| - 1], prefixes) + (if Some(f) in prefixes then {f} else {})
  }

  /** A file is offered exactly when it is listed, not known and not catalogued. */
  lemma {:induction false} NewFilesSpec(files: seq<string>, known: set<string>, prefixes: set<Option<string>>)
    ensures forall f :: f in NewFiles(files, known, prefixes) <==> f in files && f !in known && Some(f) !in prefixes
    decreases |files|
  {
    if files != [] {
      var init := files[..|files| - 1];
      NewFilesSpec(init, known, prefixes);
      assert files == init + [files[|files| - 1]];
    }
  }

  /** The offers keep listing order: a pass over two listings offers the first's files, then
      the second's. */
  lemma {:induction false} NewFilesAppend(a: seq<string>, b: seq<string>, known: set<string>, prefixes: set<Option<string>>)
    ensures NewFiles(a + b, known, prefixes) == NewFiles(a, known, prefixes) + NewFiles(b, known, prefixes)
    decreases |b|
  {
    if b == [] {
      assert a + b == a;
    } else {
      var init := b[..|b| - 1];
      NewFilesAppend(a, init, known, prefixes);
      assert (a + b)[..|a + b| - 1] == a + init;
    }
  }

  lemma {:induction false} MatchedSpec(files: seq<string>, prefixes: set<Option<string>>)
    ensures forall f :: f in Matched(files, prefixes) <==> f in files && Some(f) in prefixes
    decreases |files|
  {
    if files != [] {
      var init := files[..|files| - 1];
      MatchedSpec(init, prefixes);
      assert files == init + [files[|files| - 1]];
    }
  }

  /** Marking the catalogued files known changes nothing about what is offered: a file
      without a matching dataset is offered again on every pass until one is catalogued. */
  lemma {:induction false} OfferedAgain(files: seq<string>, known: set<string>, prefixes: set<Option<string>>)
    ensures NewFiles(files, known + Matched(files, prefixes), prefixes) == NewFiles(files, known, prefixes)
    decreases |files|
  {
    if files != [] {
      var init := files[..|files| - 1];
      var f := files[|files| - 1];
      OfferedAgain(init, known, prefixes);
      MatchedSpec(files, prefixes);
      MatchedSpec(init, prefixes);
      NewFilesKnown(init, known + Matched(init, prefixes), known + Matched(files, prefixes), prefixes);
    }
  }

  /** Knowing more files than the pass can meet matters only for files with a matching dataset. */
  lemma {:induction false} NewFilesKnown(files: seq<string>, k1: set<string>, k2: set<string>, prefixes: set<Option<string>>)
    requires forall f :: f in files && Some(f) !in prefixes ==> (f in k1 <==> f in k2)
    ensures NewFiles(files, k1, prefixes) == NewFiles(files, k2, prefixes)
    decreases |files|
  {
    if files != [] {
      var init := files[..|files| - 1];
      assert forall f :: f in init ==> f in files;
      NewFilesKnown(init, k1, k2, prefixes);
    }
  }

  class LocalFileSensor {
    /** `folder_to_monitor`, with `~` already expanded. */
    const folder: string
    const insertInstanceTs: bool
    const precision: string
    const lockingSeconds: int

    /** The files found to be catalogued. */
    var knownContents: set<string>
    /** Every file uploaded so far, in order. */
    var uploads: seq<Upload>

    /** Locking defaults to a day, and nothing is known or uploaded yet. */
    constructor(folder: string, insertInstanceTs: bool, precision: string, lockingSeconds: Option<int>)
      ensures this.folder == folder && this.insertInstanceTs == insertInstanceTs && this.precision == precision
      ensures this.lockingSeconds == if lockingSeconds.Some? then lockingSeconds.value else 86400
      ensures knownContents == {} && uploads == []
    {
      this.folder := folder;
      this.insertInstanceTs := insertInstanceTs;
      this.precision := precision;
      this.lockingSeconds := if lockingSeconds.Some? then lockingSeconds.value else 86400;
      knownContents := {};
      uploads := [];
    }

    /** The offer for one file: the file name as the instance prefix and the load info, and
        the current time `now` as its instance time when the sensor inserts one. */
    function OfferFor(f: string, now: string): (o: Offer<string>)
      ensures o.loadInfo == f && o.spec.instancePrefix == Some(f) && o.spec.altUri.None?
      ensures o.spec.instanceTs.Some? <==> insertInstanceTs
      ensures insertInstanceTs ==> o.spec.instanceTs == Some(now)
    {
      Offer(f, DatasetSpec(Some(f), if insertInstanceTs then Some(now) else None, precision, lockingSeconds, None))
    }

    /** The offers for a sequence of files, in order. */
    function Offers(names: seq<string>, now: string): (os: seq<Offer<string>>)
      ensures |os| == |names|
      ensures forall k :: 0 <= k < |names| ==> os[k] == OfferFor(names[k], now)
    {
      seq(|names|, k requires 0 <= k < |names| => OfferFor(names[k], now))
    }

    /** `get_new_datasetspecs` over the folder `listing` and the catalogued `datasets`, run to
        the end at time `now`: the files neither known nor catalogued are offered in listing
        order, and the catalogued ones become known; offered files do not. */
    method GetNewDatasetSpecs(listing: seq<Entry>, datasets: seq<Dataset>, now: string)
      returns (offers: seq<Offer<string>>)
      modifies this
      ensures offers == Offers(NewFiles(MonitoredFiles(listing), old(knownContents), Prefixes(datasets)), now)
      ensures knownContents == old(knownContents) + Matched(MonitoredFiles(listing), Prefixes(datasets))
      ensures uploads == old(uploads)
    {
      var files := MonitoredFiles(listing);
      var prefixes := Prefixes(datasets);
      ghost var names: seq<string> := [];
      offers := [];
      for i := 0 to |files|
        invariant names == NewFiles(files[..i], old(knownContents), prefixes)
        invariant offers == Offers(names, now)
        invariant knownContents == old(knownContents) + Matched(files[..i], prefixes)
        invariant uploads == old(uploads)
      {
        var f := files[i];
        assert files[..i + 1][..i] == files[..i];
        MatchedSpec(files[..i], prefixes);
        if f in knownContents {
          continue;
        }
        if Some(f) in prefixes {
          knownContents := knownContents + {f};
          continue;
        }
        offers := offers + [OfferFor(f, now)];
        names := names + [f];
      }
      assert files[..|files|] == files;
    }

    /** `save_data_to_path`: uploads the file `folder/load_info` to `uri + load_info`. */
    method SaveDataToPath(loadInfo: string, uri: string)
      modifies this
      ensures uploads == old(uploads) + [Upload(folder + "/" + loadInfo, uri + loadInfo)]
      ensures knownContents == old(knownContents)
    {
      uploads := uploads + [Upload(folder + "/" + loadInfo, uri + loadInfo)];
    }
  }
}
