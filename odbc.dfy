/** The ODBC table-load sensor's `save_data_to_path`: pick the destination class from the URI,
    prepare it, then stream the query's rows into staging files of up to twenty fetches each,
    transferring every file, and finish. */
module Odbc {
  import opened Wrappers
  import opened Sink
  import opened Batching

  /** One result row, as the cursor returns it. */
  type Row = seq<Value>

  /** How a row becomes a line of a staging file, or the error that converting it raises. */
  type Encoder = Row -> Result<Line, string>

  /** `write_row_to_file` of a prepared destination, as a function of the row. */
  function RowEncoder(protocol: Protocol, str: Value -> string, b64: Value -> string, columns: seq<Column>): Encoder
  {
    row => EncodeRow(protocol, str, b64, columns, Names(columns), row)
  }

  /** Lines written so far, followed by what the rest of the rows write; an error discards
      the lines. */
  function Prefix(lines: seq<Line>, r: Result<seq<Line>, string>): Result<seq<Line>, string>
  {
    if r.Failure? then r else Success(lines + r.value)
  }

  /** Rows written one after the other, as `for row in rows: write_row_to_file(row, f)` does:
      their lines, or the error of the first row that fails. */
  function RowsRun(enc: Encoder, rows: seq<Row>): (r: Result<seq<Line>, string>)
    ensures r.Success? ==> |r.value| == |rows|
  {
    if rows == [] then Success([])
    else if enc(rows[0]).Failure? then Failure(enc(rows[0]).error)
    else Prefix([enc(rows[0]).value], RowsRun(enc, rows[1..]))
  }

  /** The first row that cannot be encoded, or `|rows|`. */
  function FirstFailing(enc: Encoder, rows: seq<Row>): (k: nat)
    ensures k <= |rows|
    ensures forall i :: 0 <= i < k ==> enc(rows[i]).Success?
    ensures k < |rows| ==> enc(rows[k]).Failure?
  {
    if rows == [] then 0
    else if enc(rows[0]).Failure? then 0
    else 1 + FirstFailing(enc, rows[1..])
  }

  /** Writing rows succeeds exactly when every row encodes, and then line `i` is row `i`'s;
      otherwise it raises the error of the first row that does not. */
  lemma {:induction false} RowsRunSpec(enc: Encoder, rows: seq<Row>)
    ensures RowsRun(enc, rows).Success? <==> FirstFailing(enc, rows) == |rows|
    ensures RowsRun(enc, rows).Failure? ==>
      RowsRun(enc, rows).error == enc(rows[FirstFailing(enc, rows)]).error
    ensures RowsRun(enc, rows).Success? ==>
      forall i :: 0 <= i < |rows| ==> RowsRun(enc, rows).value[i] == enc(rows[i]).value
  {
    if rows != [] && enc(rows[0]).Success? {
      var rest := rows[1..];
      RowsRunSpec(enc, rest);
      if RowsRun(enc, rows).Success? {
        var ls := RowsRun(enc, rows).value;
        assert ls == [enc(rows[0]).value] + RowsRun(enc, rest).value;
        forall i | 0 <= i < |rows| ensures ls[i] == enc(rows[i]).value {
          if i > 0 {
            assert ls[i] == RowsRun(enc, rest).value[i - 1];
          }
        }
      } else {
        assert rows[FirstFailing(enc, rows)] == rest[FirstFailing(enc, rest)];
      }
    }
  }

  /** Two runs of rows written one after the other: the first run's error, or its lines
      followed by what the second run writes. */
  lemma {:induction false} RowsRunAppend(enc: Encoder, a: seq<Row>, b: seq<Row>)
    ensures RowsRun(enc, a + b) ==
      if RowsRun(enc, a).Failure? then RowsRun(enc, a) else Prefix(RowsRun(enc, a).value, RowsRun(enc, b))
  {
    if a == [] {
      assert a + b == b;
      if RowsRun(enc, b).Success? {
        assert [] + RowsRun(enc, b).value == RowsRun(enc, b).value;
      }
    } else {
      assert (a + b)[0] == a[0];
      assert (a + b)[1..] == a[1..] + b;
      if enc(a[0]).Success? {
        RowsRunAppend(enc, a[1..], b);
        if RowsRun(enc, a).Success? && RowsRun(enc, b).Success? {
          var x, y, z := [enc(a[0]).value], RowsRun(enc, a[1..]).value, RowsRun(enc, b).value;
          assert x + (y + z) == x + y + z;
        }
      }
    }
  }

  /** One turn of the `while not done` loop over rows that all encode: its staging file holds
      the lines of the rows `File` takes, and the rest of the files are those of the rows
      after them. */
  lemma BatchesStep(enc: Encoder, rows: seq<Row>, fr: nat)
    requires fr > 0 && RowsRun(enc, rows).Success?
    ensures var f := File(|rows|, fr);
      RowsRun(enc, rows[..f.taken]).Success? && RowsRun(enc, rows[f.taken..]).Success? &&
      Batches(RowsRun(enc, rows).value, fr) ==
        [RowsRun(enc, rows[..f.taken]).value] +
        (if f.done then [] else Batches(RowsRun(enc, rows[f.taken..]).value, fr))
  {
    var f := File(|rows|, fr);
    var chunk, rest := rows[..f.taken], rows[f.taken..];
    assert rows == chunk + rest;
    RowsRunAppend(enc, chunk, rest);
    var e := RowsRun(enc, rows).value;
    assert e[..f.taken] == RowsRun(enc, chunk).value;
    assert e[f.taken..] == RowsRun(enc, rest).value;
  }

  /** Where a staging file ends: its lines, the rows it took, whether an empty fetch ended
      it, and the error of a row that could not be written. */
  datatype FileOut = FileOut(lines: seq<Line>, taken: nat, done: bool, err: Option<string>)

  /** One staging file of the `for batch_i in range(20)` loop: the lines of the rows its
      fetches return (`File`), or the error writing them raises. */
  function FileRun(enc: Encoder, rows: seq<Row>, fr: nat): (o: FileOut)
    ensures o.taken <= |rows|
    ensures o.err.None? && !o.done ==> o.taken > 0
    ensures o.err.None? && o.done && fr > 0 ==> o.taken == |rows|
  {
    var f := File(|rows|, fr);
    var w := RowsRun(enc, rows[..f.taken]);
    if w.Failure? then FileOut([], 0, false, Some(w.error)) else FileOut(w.value, f.taken, f.done, None)
  }

  /** Writing the next `t` rows after `got` written ones: the lines so far followed by theirs. */
  lemma WriteMore(enc: Encoder, rows: seq<Row>, got: nat, t: nat)
    requires got + t <= |rows|
    ensures RowsRun(enc, rows[..got + t]) ==
      if RowsRun(enc, rows[..got]).Failure? then RowsRun(enc, rows[..got])
      else Prefix(RowsRun(enc, rows[..got]).value, RowsRun(enc, rows[got..got + t]))
  {
    assert rows[..got + t] == rows[..got] + rows[got..got + t];
    RowsRunAppend(enc, rows[..got], rows[got..got + t]);
  }

  /** Once a written prefix of the rows raises, every longer prefix raises the same error. */
  lemma FailedPrefix(enc: Encoder, rows: seq<Row>, k: nat, n: nat)
    requires k <= n <= |rows| && RowsRun(enc, rows[..k]).Failure?
    ensures RowsRun(enc, rows[..n]) == RowsRun(enc, rows[..k])
  {
    WriteMore(enc, rows, k, n - k);
  }

  /** Earlier staging files, followed by those of the rest of the rows. */
  function Files(done: seq<seq<Line>>, r: Result<seq<seq<Line>>, string>): Result<seq<seq<Line>>, string>
  {
    if r.Failure? then r else Success(done + r.value)
  }

  /** The `while not done` loop: the staging files, or the error of a row. */
  function LoadRun(enc: Encoder, rows: seq<Row>, fr: nat): Result<seq<seq<Line>>, string>
    decreases |rows|
  {
    var f := FileRun(enc, rows, fr);
    if f.err.Some? then Failure(f.err.value)
    else if f.done then Success([f.lines])
    else Files([f.lines], LoadRun(enc, rows[f.taken..], fr))
  }

  /** The loop writes the lines of all the rows, cut into `Batches`, unless writing them
      raises, and then it raises that error. */
  lemma {:induction false} LoadRunSpec(enc: Encoder, rows: seq<Row>, fr: nat)
    requires fr > 0
    ensures var w := RowsRun(enc, rows);
      LoadRun(enc, rows, fr) == if w.Failure? then Failure(w.error) else Success(Batches(w.value, fr))
    decreases |rows|
  {
    var ft := File(|rows|, fr);
    var chunk := rows[..ft.taken];
    var rest := rows[ft.taken..];
    assert rows == chunk + rest;
    RowsRunAppend(enc, chunk, rest);
    if RowsRun(enc, chunk).Success? {
      if ft.done {
        assert chunk == rows;
        BatchesStep(enc, rows, fr);
        assert [RowsRun(enc, chunk).value] + [] == [RowsRun(enc, chunk).value];
      } else {
        LoadRunSpec(enc, rest, fr);
        if RowsRun(enc, rows).Success? {
          BatchesStep(enc, rows, fr);
        }
      }
    }
  }

  /** A pyodbc cursor after `execute`: the rows still to be fetched. */
  class OdbcCursor {
    var rows: seq<Row>

    constructor(rows: seq<Row>)
      ensures this.rows == rows
    {
      this.rows := rows;
    }

    /** `fetchmany(n)`: the next `n` rows, or all that remain. */
    method FetchMany(n: nat) returns (batch: seq<Row>)
      modifies this
      ensures batch == old(rows)[..Min(n, |old(rows)|)]
      ensures rows == old(rows)[|batch|..]
    {
      batch := rows[..Min(n, |rows|)];
      rows := rows[|batch|..];
    }
  }

  /** `write_row_to_file` of the destination turns `row` into `enc(row)`. */
  ghost predicate EncodesRow(dest: Destination, enc: Encoder, row: Row)
    reads dest
  {
    enc(row) == EncodeRow(dest.protocol, dest.str, dest.b64, dest.columns, dest.colNames, row)
  }

  /** The destination encodes every row with `enc`. */
  ghost predicate Encodes(dest: Destination, enc: Encoder)
    reads dest
  {
    forall row {:trigger EncodesRow(dest, enc, row)} :: EncodesRow(dest, enc, row)
  }

  class OdbcSensor {
    const batchRows: nat
    const outputFormat: string
    const compression: string
    const str: Value -> string
    const b64: Value -> string

    /** The configuration defaults: `batch_rows` 100000, `output_format` "json",
        `compression` "gz". */
    constructor(batchRows: Option<nat>, outputFormat: Option<string>, compression: Option<string>,
                str: Value -> string, b64: Value -> string)
      ensures this.batchRows == if batchRows.Some? then batchRows.value else 100000
      ensures this.outputFormat == if outputFormat.Some? then outputFormat.value else "json"
      ensures this.compression == if compression.Some? then compression.value else "gz"
      ensures this.str == str && this.b64 == b64
    {
      this.batchRows := if batchRows.Some? then batchRows.value else 100000;
      this.outputFormat := if outputFormat.Some? then outputFormat.value else "json";
      this.compression := if compression.Some? then compression.value else "gz";
      this.str := str;
      this.b64 := b64;
    }

    /** Rows per fetch: `batch_rows // 20`, but at least one, so that a small `batch_rows`
        does not turn every fetch into an empty one. */
    function FetchRows(): (fr: nat)
      ensures fr > 0
      ensures batchRows >= 20 ==> fr == batchRows / 20
      ensures batchRows < 20 ==> fr == 1
    {
      if batchRows / 20 > 0 then batchRows / 20 else 1
    }

    /** What `prepare`, the load loop and `finish` leave behind, starting from a fresh
        destination and a cursor holding `rows`: a failing `prepare` raises before any row is
        fetched; otherwise, when every row encodes, the destination's transfers are
        `prepare`'s, then one per staging file in order, then `finish`'s, and the cursor is
        drained; else the first row that does not encode raises its error. */
    ghost predicate Saved(dest: Destination, o: Outcome<string>, rows: seq<Row>, left: seq<Row>)
      reads dest
    {
      (dest.PrepareOutcome().Fail? ==> o == dest.PrepareOutcome() && dest.log == [] && left == rows) &&
      (dest.PrepareOutcome().Pass? ==>
         (dest.protocol == Bq ==> Schema(dest.columns).Success?) &&
         var w := RowsRun(RowEncoder(dest.protocol, dest.str, dest.b64, dest.columns), rows);
         (w.Failure? ==> o == Fail(w.error)) &&
         (w.Success? ==>
            o == Pass && left == [] &&
            dest.log == dest.PrepareLog() + dest.BatchLog(0, Batches(w.value, FetchRows())) + dest.FinishLog()))
    }

    /** `save_data_to_path` over the loaded `columns` and a cursor holding the query's
        result. A URI whose scheme is missing or unregistered raises before anything else;
        otherwise the destination of that protocol is created and `Saved` says what the rest
        does. */
    method SaveDataToPath(cursor: OdbcCursor, columns: seq<Column>, uri: string)
      returns (o: Outcome<string>, dest: Destination?)
      modifies cursor
      ensures var p := ProtocolOf(uri);
        (p.Failure? ==> o == Fail(p.error) && dest == null && cursor.rows == old(cursor.rows)) &&
        (p.Success? ==>
           dest != null && fresh(dest) &&
           dest.protocol == p.value && dest.uri == uri && dest.columns == columns &&
           dest.compression == compression && dest.outputFormat == outputFormat &&
           dest.str == str && dest.b64 == b64 &&
           Saved(dest, o, old(cursor.rows), cursor.rows))
    {
      var p := ProtocolOf(uri);
      if p.Failure? {
        return Fail(p.error), null;
      }
      dest := new Destination(p.value, uri, columns, compression, outputFormat, str, b64);
      o := PrepareAndLoad(cursor, dest);
    }

    /** `prepare`, then the load loop and `finish` on a fresh destination. */
    method PrepareAndLoad(cursor: OdbcCursor, dest: Destination) returns (o: Outcome<string>)
      requires dest.batchNum == 0 && dest.colNames == [] && dest.schema == [] && dest.log == []
      requires dest.str == str && dest.b64 == b64
      modifies cursor, dest
      ensures Saved(dest, o, old(cursor.rows), cursor.rows)
    {
      o := dest.Prepare();
      if o.Fail? {
        return;
      }
      ghost var rows := cursor.rows;
      ghost var enc := RowEncoder(dest.protocol, str, b64, dest.columns);
      forall row
        ensures EncodesRow(dest, enc, row)
      {
      }
      assert dest.log == dest.PrepareLog();
      o := Load(cursor, dest, FetchRows(), enc);
      LoadSaved(dest, o, rows, cursor.rows);
    }

    /** `Saved` after a `prepare` that passed, from what the load loop and `finish` did. */
    lemma LoadSaved(dest: Destination, o: Outcome<string>, rows: seq<Row>, left: seq<Row>)
      requires dest.PrepareOutcome().Pass?
      requires var run := LoadRun(RowEncoder(dest.protocol, dest.str, dest.b64, dest.columns), rows, FetchRows());
        (run.Failure? ==> o == Fail(run.error)) &&
        (run.Success? ==>
           o == Pass && left == [] &&
           dest.log == dest.PrepareLog() + dest.BatchLog(0, run.value) + dest.FinishLog())
      ensures Saved(dest, o, rows, left)
    {
      LoadRunSpec(RowEncoder(dest.protocol, dest.str, dest.b64, dest.columns), rows, FetchRows());
    }

    /** The `while not done` loop and `finish`, on a prepared destination: one transfer per
        staging file of `LoadRun`, then `finish`'s, and the cursor drained; or the error of a
        row. */
    method Load(cursor: OdbcCursor, dest: Destination, fr: nat, ghost enc: Encoder) returns (o: Outcome<string>)
      requires fr > 0 && Encodes(dest, enc) && dest.batchNum == 0
      modifies cursor, dest
      ensures var run := LoadRun(enc, old(cursor.rows), fr);
        (run.Failure? ==> o == Fail(run.error)) &&
        (run.Success? ==>
           o == Pass && cursor.rows == [] &&
           dest.log == old(dest.log) + dest.BatchLog(0, run.value) + dest.FinishLog())
    {
      ghost var goal := LoadRun(enc, cursor.rows, fr);
      ghost var files: seq<seq<Line>> := [];
      FilesEmpty(goal);
      var done := false;
      while !done
        invariant Encodes(dest, enc) && dest.batchNum == |files|
        invariant dest.log == old(dest.log) + dest.BatchLog(0, files)
        invariant done ==> goal == Success(files) && cursor.rows == []
        invariant !done ==> goal == Files(files, LoadRun(enc, cursor.rows, fr))
        decreases !done, |cursor.rows|
      {
        var file, fileDone, err := FillFile(cursor, dest, fr, enc);
        if err.Some? {
          return Fail(err.value);
        }
        FilesFiles(files, file, LoadRun(enc, cursor.rows, fr));
        dest.AppendData(file);
        dest.BatchLogAppend(0, files, file);
        files := files + [file];
        done := fileDone;
      }
      dest.Finish();
      o := Pass;
    }

    /** One staging file: up to twenty fetches, each row written as it arrives, the loop left
        after the first empty fetch or the first row that cannot be written. */
    method FillFile(cursor: OdbcCursor, dest: Destination, fr: nat, ghost enc: Encoder)
      returns (file: seq<Line>, done: bool, err: Option<string>)
      requires fr > 0 && Encodes(dest, enc)
      modifies cursor
      ensures var r := FileRun(enc, old(cursor.rows), fr);
        err == r.err &&
        (err.None? ==> file == r.lines && done == r.done && cursor.rows == old(cursor.rows)[r.taken..])
    {
      ghost var rows := cursor.rows;
      var fetches := 20;
      file := [];
      done := false;
      ghost var got: nat := 0;
      assert rows[..0] == [];
      var j := 0;
      while j < fetches
        invariant 0 <= j <= fetches && got <= |rows|
        invariant cursor.rows == rows[got..]
        invariant RowsRun(enc, rows[..got]) == Success(file)
        invariant got <= Cap(j, fr) && (got < |rows| ==> got == Cap(j, fr))
        invariant j > 0 ==> Cap(j - 1, fr) < got
        invariant !done
      {
        done := true;
        var lines, e, empty, t := FetchBatch(cursor, dest, fr, enc, rows, j, got, file);
        if !empty {
          done := false;
        }
        if e.Some? {
          return [], false, e;
        }
        file := file + lines;
        got := got + t;
        if done {
          break;
        }
        j := j + 1;
      }
      FileEnd(|rows|, fr, j, got, done);
      err := None;
    }

    /** Fetch `j` of the file: `fetchmany(fr)` after the file's earlier fetches took `got` of
        the `rows` and wrote `file`, then each row of the batch written (`empty` when the
        batch is). A row that raises makes the whole file raise that error; otherwise the file
        has grown by the batch's lines and every fetch but the last stays full. */
    method FetchBatch(cursor: OdbcCursor, dest: Destination, fr: nat, ghost enc: Encoder,
                      ghost rows: seq<Row>, ghost j: nat, ghost got: nat, ghost file: seq<Line>)
      returns (lines: seq<Line>, err: Option<string>, empty: bool, ghost t: nat)
      requires fr > 0 && Encodes(dest, enc) && j < 20 && got <= |rows| && cursor.rows == rows[got..]
      requires RowsRun(enc, rows[..got]) == Success(file)
      requires got <= Cap(j, fr) && (got < |rows| ==> got == Cap(j, fr))
      modifies cursor
      ensures got + t <= |rows| && cursor.rows == rows[got + t..] && empty == (t == 0)
      ensures err.Some? ==> FileRun(enc, rows, fr).err == err
      ensures err.None? ==>
        RowsRun(enc, rows[..got + t]) == Success(file + lines) &&
        got + t <= Cap(j + 1, fr) && (got + t < |rows| ==> got + t == Cap(j + 1, fr)) &&
        (t > 0 ==> Cap(j, fr) < got + t)
    {
      var batch := cursor.FetchMany(fr);
      t := |batch|;
      assert batch == rows[got..got + t];
      lines, err := WriteRows(batch, dest, enc);
      empty := batch == [];
      FetchStep(enc, rows, fr, j, got, file, t);
    }

    /** The rows of one fetch, written one after the other. */
    method WriteRows(batch: seq<Row>, dest: Destination, ghost enc: Encoder)
      returns (lines: seq<Line>, err: Option<string>)
      requires Encodes(dest, enc)
      ensures var w := RowsRun(enc, batch);
        (w.Failure? ==> err == Some(w.error)) && (w.Success? ==> err.None? && lines == w.value)
    {
      lines := [];
      PrefixEmpty(RowsRun(enc, batch));
      for k := 0 to |batch|
        invariant RowsRun(enc, batch) == Prefix(lines, RowsRun(enc, batch[k..]))
      {
        var r := WriteRow(batch[k], dest, enc);
        assert batch[k..][1..] == batch[k + 1..];
        if r.Failure? {
          return [], Some(r.error);
        }
        PrefixPrefix(lines, r.value, RowsRun(enc, batch[k + 1..]));
        lines := lines + [r.value];
      }
      return lines, None;
    }

    /** `write_row_to_file` on a fresh array holding the row. */
    method WriteRow(row: Row, dest: Destination, ghost enc: Encoder) returns (r: Result<Line, string>)
      requires Encodes(dest, enc)
      ensures r == enc(row)
    {
      var a := new Value[|row|](i requires 0 <= i < |row| => row[i]);
      assert a[..] == row;
      r := dest.WriteRowToFile(a);
      assert EncodesRow(dest, enc, row);
    }
  }

  lemma PrefixEmpty(r: Result<seq<Line>, string>)
    ensures Prefix([], r) == r
  {
    if r.Success? {
      assert [] + r.value == r.value;
    }
  }


  lemma FilesEmpty(r: Result<seq<seq<Line>>, string>)
    ensures Files([], r) == r
  {
    if r.Success? {
      assert [] + r.value == r.value;
    }
  }




  /** One fetch of the file's loop, `t == min(fr, remaining)` rows after `j` fetches that
      wrote `file`: a row of it that raises makes the whole file raise that error; otherwise
      the file grows by its lines and every fetch but the last stays full. */
  lemma FetchStep(enc: Encoder, rows: seq<Row>, fr: nat, j: nat, got: nat, file: seq<Line>, t: nat)
    requires fr > 0 && j < 20 && got <= |rows| && RowsRun(enc, rows[..got]) == Success(file)
    requires got <= Cap(j, fr) && (got < |rows| ==> got == Cap(j, fr))
    requires t == Min(fr, |rows| - got)
    ensures got + t <= |rows|
    ensures var w := RowsRun(enc, rows[got..got + t]);
      (w.Failure? ==> FileRun(enc, rows, fr).err == Some(w.error)) &&
      (w.Success? ==>
         RowsRun(enc, rows[..got + t]) == Success(file + w.value) &&
         got + t <= Cap(j + 1, fr) && (got + t < |rows| ==> got + t == Cap(j + 1, fr)) &&
         (t > 0 ==> Cap(j, fr) < got + t))
  {
    WriteMore(enc, rows, got, t);
    if RowsRun(enc, rows[got..got + t]).Failure? {
      WithinFile(|rows|, fr, j + 1, got + t);
      FailedPrefix(enc, rows, got + t, File(|rows|, fr).taken);
    }
  }

  /** Rows that fit in `k <= 20` fetches of `fr` rows fit in the file. */
  lemma WithinFile(n: nat, fr: nat, k: nat, got: nat)
    requires fr > 0 && k <= 20 && got <= n && got <= Cap(k, fr)
    ensures got <= File(n, fr).taken
  {
    CapMono(k, 20, fr);
    CapIsProduct(20, fr);
  }

  /** Where the fetch loop of a file stops: after an empty fetch (`done`), all `n` rows taken
      within nineteen full fetches; or after twenty non-empty fetches, the first nineteen full.
      Either way the file is `File(n, fr)`. */
  lemma FileEnd(n: nat, fr: nat, j: nat, got: nat, done: bool)
    requires fr > 0 && got <= n && got <= Cap(j, fr) && (got < n ==> got == Cap(j, fr))
    requires j > 0 ==> Cap(j - 1, fr) < got
    requires done ==> got == n && j < 20
    requires !done ==> j == 20
    ensures File(n, fr) == Fill(got, done)
  {
    CapIsProduct(20, fr);
    CapIsProduct(19, fr);
    if done {
      CapMono(j, 19, fr);
    }
  }

  lemma PrefixPrefix(lines: seq<Line>, line: Line, r: Result<seq<Line>, string>)
    ensures Prefix(lines, Prefix([line], r)) == Prefix(lines + [line], r)
  {
    if r.Success? {
      assert lines + ([line] + r.value) == lines + [line] + r.value;
    }
  }

  lemma FilesFiles(files: seq<seq<Line>>, file: seq<Line>, r: Result<seq<seq<Line>>, string>)
    ensures Files(files, Files([file], r)) == Files(files + [file], r)
  {
    if r.Success? {
      assert files + ([file] + r.value) == files + [file] + r.value;
    }
  }
}
