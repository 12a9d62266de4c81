/** The ODBC sensor's destinations: protocol dispatch on the URI scheme, the SQL-to-BigQuery
    type table, sparse row encoding, and the `S3Destination` / `BigQueryDestination` objects
    with their batch counter and transfer log. */
module Sink {
  import opened Wrappers
  import opened Text

  /** The pyodbc SQL type codes the BigQuery destination knows, and every other code. */
  datatype SqlType =
    | SqlChar | SqlVarchar | SqlLongVarchar | SqlWChar | SqlWVarchar | SqlWLongVarchar | SqlGuid
    | SqlTypeDate | SqlTypeTime | SqlTypeTimestamp
    | SqlBinary | SqlVarbinary
    | SqlDecimal | SqlNumeric
    | SqlSmallint | SqlInteger | SqlBit | SqlTinyint | SqlBigint
    | SqlReal | SqlFloat | SqlDouble
    | SqlIntervalMonth | SqlIntervalYear | SqlIntervalYearToMonth | SqlIntervalDay
    | SqlIntervalHour | SqlIntervalMinute | SqlIntervalSecond | SqlIntervalDayToHour
    | SqlIntervalDayToMinute | SqlIntervalDayToSecond | SqlIntervalHourToMinute
    | SqlIntervalHourToSecond | SqlIntervalMinuteToSecond
    | SqlOther(code: int)

  datatype BqType = BqString | BqDate | BqTime | BqDatetime | BqBytes | BqDecimal | BqInteger | BqFloat64 | BqInterval

  /** A column as `cursor.columns(table=...)` describes it. */
  datatype Column = Column(name: string, dataType: SqlType, nullable: bool)

  datatype Mode = Nullable | Required

  datatype SchemaField = SchemaField(name: string, bqType: BqType, mode: Mode)

  /** A cell of a fetched row. `DateTime` is a `datetime.datetime`; `Date` and `Time` are the
      separate `datetime.date` and `datetime.time` types; `Dec` is a `decimal.Decimal`. */
  datatype Value =
    | Null | Str(s: string) | Int(i: int) | Float(f: real) | Bool(b: bool) | Bytes(bytes: seq<int>)
    | DateTime(dt: int) | Date(d: int) | Time(t: int) | Dec(x: real) | Interval(seconds: int)

  /** An encoded row: the JSON object's fields, in order. */
  type Line = seq<(string, Value)>

  datatype Protocol = S3 | Bq

  /** The object an S3 upload writes: staging file `batchNum` under the URI prefix, or an
      object named outright. `KeyName` gives its name. */
  datatype ObjectKey = Part(prefix: string, batchNum: nat, compression: string) | Named(name: string)

  /** What a destination does to the outside world, in order. */
  datatype Transfer =
    | Upload(key: ObjectKey, lines: seq<Line>)
    | DeleteTable(table: string)
    | CreateTable(table: string, schema: seq<SchemaField>)
    | LoadAppend(table: string, lines: seq<Line>)

  predicate IsInterval(t: SqlType)
  {
    t.SqlIntervalMonth? || t.SqlIntervalYear? || t.SqlIntervalYearToMonth? || t.SqlIntervalDay? ||
    t.SqlIntervalHour? || t.SqlIntervalMinute? || t.SqlIntervalSecond? || t.SqlIntervalDayToHour? ||
    t.SqlIntervalDayToMinute? || t.SqlIntervalDayToSecond? || t.SqlIntervalHourToMinute? ||
    t.SqlIntervalHourToSecond? || t.SqlIntervalMinuteToSecond?
  }

  /** `BigQueryDestination.type_mapping`: None for a code the table does not list. */
  function TypeMapping(t: SqlType): (r: Option<BqType>)
    ensures r.None? <==> t.SqlOther?
    ensures r == Some(BqInterval) <==> IsInterval(t)
  {
    match t
    case SqlChar => Some(BqString)
    case SqlVarchar => Some(BqString)
    case SqlLongVarchar => Some(BqString)
    case SqlWChar => Some(BqString)
    case SqlWVarchar => Some(BqString)
    case SqlWLongVarchar => Some(BqString)
    case SqlGuid => Some(BqString)
    case SqlTypeDate => Some(BqDate)
    case SqlTypeTime => Some(BqTime)
    case SqlTypeTimestamp => Some(BqDatetime)
    case SqlBinary => Some(BqBytes)
    case SqlVarbinary => Some(BqBytes)
    case SqlDecimal => Some(BqDecimal)
    case SqlNumeric => Some(BqDecimal)
    case SqlSmallint => Some(BqInteger)
    case SqlInteger => Some(BqInteger)
    case SqlBit => Some(BqInteger)
    case SqlTinyint => Some(BqInteger)
    case SqlBigint => Some(BqInteger)
    case SqlReal => Some(BqFloat64)
    case SqlFloat => Some(BqFloat64)
    case SqlDouble => Some(BqFloat64)
    case SqlOther(_) => None
    case _ => Some(BqInterval)
  }

  /** Python's `str` of an integer. */
  function IntText(i: int): (r: string)
    ensures |r| >= 1
  {
    if i < 0 then "-" + Decimal(-i) else Decimal(i)
  }

  function KeyError(t: SqlType): string
  {
    "KeyError: " + if t.SqlOther? then IntText(t.code) else "?"
  }

  /** The column names, in column order. */
  function Names(columns: seq<Column>): (r: seq<string>)
    ensures |r| == |columns| && forall i :: 0 <= i < |columns| ==> r[i] == columns[i].name
  {
    if columns == [] then [] else [columns[0].name] + Names(columns[1..])
  }

  /** The position of the first column whose type the table does not list, if any. */
  function FirstUnmapped(columns: seq<Column>): (k: nat)
    ensures k <= |columns|
    ensures forall i :: 0 <= i < k ==> TypeMapping(columns[i].dataType).Some?
    ensures k < |columns| ==> TypeMapping(columns[k].dataType).None?
  {
    if columns == [] || TypeMapping(columns[0].dataType).None? then 0 else 1 + FirstUnmapped(columns[1..])
  }

  /** The BigQuery schema: one field per column, in order, typed by the table and REQUIRED
      exactly when the column is not nullable; the first unlisted type is a lookup error. */
  function Schema(columns: seq<Column>): (r: Result<seq<SchemaField>, string>)
    ensures r.Success? <==> forall i :: 0 <= i < |columns| ==> TypeMapping(columns[i].dataType).Some?
    ensures r.Failure? ==> r.error == KeyError(columns[FirstUnmapped(columns)].dataType)
    ensures r.Success? ==> (|r.value| == |columns| &&
      forall i :: 0 <= i < |columns| ==>
        r.value[i].name == columns[i].name &&
        Some(r.value[i].bqType) == TypeMapping(columns[i].dataType) &&
        (r.value[i].mode == Required <==> !columns[i].nullable))
  {
    if columns == [] then Success([])
    else
      var c := columns[0];
      match TypeMapping(c.dataType)
      case None => Failure(KeyError(c.dataType))
      case Some(t) =>
        var rest := Schema(columns[1..]);
        assert forall i :: 1 <= i < |columns| ==> columns[i] == columns[1..][i - 1];
        if rest.Failure? then rest
        else Success([SchemaField(c.name, t, if c.nullable then Nullable else Required)] + rest.value)
  }

  /** `dict(filter(lambda x: x[1] is not None, zip(col_names, row)))`: pairs up names and cells
      as far as both go and drops the null cells. */
  function Sparse(names: seq<string>, cells: seq<Value>): (r: Line)
    ensures |r| <= |names| && |r| <= |cells|
    ensures forall p :: p in r ==> p.1 != Null
  {
    if names == [] || cells == [] then []
    else (if cells[0] == Null then [] else [(names[0], cells[0])]) + Sparse(names[1..], cells[1..])
  }

  /** The value of a field of an encoded row. */
  function Get(line: Line, name: string): Option<Value>
  {
    if line == [] then None else if line[0].0 == name then Some(line[0].1) else Get(line[1..], name)
  }

  predicate Distinct(names: seq<string>)
  {
    forall i, j :: 0 <= i < j < |names| ==> names[i] != names[j]
  }

  lemma GetCons(p: (string, Value), line: Line, n: string)
    ensures Get([p] + line, n) == if p.0 == n then Some(p.1) else Get(line, n)
  {
    assert ([p] + line)[1..] == line;
  }

  lemma SparseCons(names: seq<string>, cells: seq<Value>)
    requires names != [] && cells != []
    ensures Sparse(names, cells) ==
      if cells[0] == Null then Sparse(names[1..], cells[1..])
      else [(names[0], cells[0])] + Sparse(names[1..], cells[1..])
  {
    if cells[0] == Null {
      assert [] + Sparse(names[1..], cells[1..]) == Sparse(names[1..], cells[1..]);
    }
  }

  lemma {:induction false} SparseKeys(names: seq<string>, cells: seq<Value>, n: string)
    requires n !in names
    ensures Get(Sparse(names, cells), n) == None
  {
    if names != [] && cells != [] {
      assert n !in names[1..];
      SparseKeys(names[1..], cells[1..], n);
      SparseCons(names, cells);
      if cells[0] != Null {
        GetCons((names[0], cells[0]), Sparse(names[1..], cells[1..]), n);
      }
    }
  }

  /** Read back as a JSON object, the encoding has the key `col_names[i]` exactly for the
      non-null cells, with that cell as value; a null cell's key is absent. */
  lemma {:induction false} SparseLookup(names: seq<string>, cells: seq<Value>, i: nat)
    requires Distinct(names) && i < |names| && i < |cells|
    ensures Get(Sparse(names, cells), names[i]) == if cells[i] == Null then None else Some(cells[i])
  {
    var rest := Sparse(names[1..], cells[1..]);
    SparseCons(names, cells);
    DistinctTail(names);
    if i == 0 {
      SparseKeys(names[1..], cells[1..], names[0]);
    } else {
      SparseLookup(names[1..], cells[1..], i - 1);
      assert names[1..][i - 1] == names[i] && cells[1..][i - 1] == cells[i];
    }
    if cells[0] != Null {
      GetCons((names[0], cells[0]), rest, names[i]);
    }
  }

  lemma DistinctTail(names: seq<string>)
    requires Distinct(names) && names != []
    ensures Distinct(names[1..]) && names[0] !in names[1..]
  {
    forall j | 0 <= j < |names[1..]|
      ensures names[1..][j] != names[0]
    {
      assert names[1..][j] == names[j + 1];
    }
    forall a, b | 0 <= a < b < |names[1..]|
      ensures names[1..][a] != names[1..][b]
    {
      assert names[1..][a] == names[a + 1] && names[1..][b] == names[b + 1];
    }
  }

  /** The base `write_row_to_file` conversion: a `datetime.datetime` becomes its `str`, every
      other cell, null included, is kept. */
  function BaseCell(str: Value -> string, v: Value): (r: Value)
    ensures v.DateTime? ==> r == Str(str(v))
    ensures !v.DateTime? ==> r == v
  {
    if v.DateTime? then Str(str(v)) else v
  }

  /** The BigQuery conversion: non-null DATE, TIME, DATETIME and INTERVAL cells become their
      `str`, non-null BYTES cells their base64 text, and everything else, nulls included, is
      kept. `base64.b64encode` accepts only bytes; a BYTES column is taken to hold bytes, as
      pyodbc returns for binary columns, so `b64` is applied without a type error case. */
  function BqCell(str: Value -> string, b64: Value -> string, t: BqType, v: Value): (r: Value)
    ensures r == Null <==> v == Null
    ensures v != Null && t in {BqDate, BqTime, BqDatetime, BqInterval} ==> r == Str(str(v))
    ensures v != Null && t == BqBytes ==> r == Str(b64(v))
    ensures t !in {BqDate, BqTime, BqDatetime, BqInterval, BqBytes} ==> r == v
  {
    if v == Null then Null
    else if t == BqDate || t == BqTime || t == BqDatetime || t == BqInterval then Str(str(v))
    else if t == BqBytes then Str(b64(v))
    else v
  }

  /** The text before the first ':' of the URI; without one, `uri.split(':', 1)` has a single
      part and the two-name unpacking fails. */
  function Scheme(uri: string): (r: Result<string, string>)
    ensures r.Success? <==> ':' in uri
    ensures r.Success? ==> ':' !in r.value && StartsWith(uri, r.value + ":")
  {
    if uri == [] then Failure("ValueError: not enough values to unpack (expected 2, got 1)")
    else if uri[0] == ':' then Success("")
    else
      var rest := Scheme(uri[1..]);
      if rest.Failure? then rest
      else
        assert uri == [uri[0]] + uri[1..];
        Success([uri[0]] + rest.value)
  }

  /** `DestinationProtocol.get_object_from_uri`: the scheme selects the registered class. */
  function ProtocolOf(uri: string): Result<Protocol, string>
  {
    var s := Scheme(uri);
    if s.Failure? then Failure(s.error)
    else if s.value == "s3" then Success(S3)
    else if s.value == "bq" then Success(Bq)
    else Failure("Exception: " + s.value + " is not a registered destination protocol. Only found ['bq', 's3']")
  }

  /** 's3:' and 'bq:' URIs select their class, and nothing else does. */
  lemma ProtocolOfSpec(uri: string)
    ensures ProtocolOf(uri) == Success(S3) <==> StartsWith(uri, "s3:")
    ensures ProtocolOf(uri) == Success(Bq) <==> StartsWith(uri, "bq:")
  {
    SchemeSelects(uri, "s3");
    assert "s3" + ":" == "s3:";
    SchemeSelects(uri, "bq");
    assert "bq" + ":" == "bq:";
    assert ProtocolOf(uri) == Success(S3) <==> Scheme(uri) == Success("s3");
    assert ProtocolOf(uri) == Success(Bq) <==> Scheme(uri) == Success("bq");
  }

  /** Any other scheme is an error naming it and the registered protocols; a URI without a
      colon fails to unpack. */
  lemma ProtocolOfError(uri: string)
    ensures ProtocolOf(uri).Failure? && Scheme(uri).Success? ==>
      ProtocolOf(uri).error == "Exception: " + Scheme(uri).value + " is not a registered destination protocol. Only found ['bq', 's3']"
    ensures Scheme(uri).Failure? ==> ProtocolOf(uri) == Failure("ValueError: not enough values to unpack (expected 2, got 1)")
  {
    if Scheme(uri).Failure? {
      SchemeFailure(uri);
    }
  }

  lemma {:induction false} SchemeFailure(uri: string)
    requires Scheme(uri).Failure?
    ensures Scheme(uri).error == "ValueError: not enough values to unpack (expected 2, got 1)"
    decreases |uri|
  {
    if uri != [] {
      SchemeFailure(uri[1..]);
    }
  }

  /** A colon-free name is the scheme exactly when the URI starts with it and a colon. */
  lemma SchemeSelects(uri: string, name: string)
    requires ':' !in name
    ensures Scheme(uri) == Success(name) <==> StartsWith(uri, name + ":")
  {
    var s := Scheme(uri);
    if StartsWith(uri, name + ":") {
      assert ':' in uri by {
        assert uri[|name|] == (name + ":")[|name|];
      }
      SchemeOfPrefix(uri, s.value, name);
    }
  }

  /** Two colon-free schemes that both start the URI before a colon are the same. */
  lemma SchemeOfPrefix(uri: string, a: string, b: string)
    requires ':' !in a && StartsWith(uri, a + ":")
    requires ':' !in b && StartsWith(uri, b + ":")
    ensures a == b
  {
    assert forall i :: 0 <= i < |a| ==> uri[i] == (a + ":")[i] == a[i];
    assert uri[|a|] == (a + ":")[|a|];
    assert forall i :: 0 <= i < |b| ==> uri[i] == (b + ":")[i] == b[i];
    assert uri[|b|] == (b + ":")[|b|];
    assert |a| == |b|;
    assert a == uri[..|a|];
  }

  /** `uri + f"part-{batch_num:>05}"`, with ".gz" when the compression is 'gz'. */
  function PartName(uri: string, batchNum: nat, compression: string): string
  {
    uri + "part-" + Pad5(batchNum) + (if compression == "gz" then ".gz" else "")
  }

  function KeyName(key: ObjectKey): string
  {
    match key
    case Part(prefix, batchNum, compression) => PartName(prefix, batchNum, compression)
    case Named(name) => name
  }

  /** Batch files never overwrite each other or the success marker. */
  lemma PartNamesDistinct(uri: string, a: nat, b: nat, compression: string)
    ensures PartName(uri, a, compression) == PartName(uri, b, compression) <==> a == b
    ensures PartName(uri, a, compression) != uri + "_SUCCESS"
  {
    var sfx := if compression == "gz" then ".gz" else "";
    var pa, pb := PartName(uri, a, compression), PartName(uri, b, compression);
    assert pa[|uri|] == 'p';
    assert (uri + "_SUCCESS")[|uri|] == '_';
    if pa == pb {
      Pad5Spec(a);
      Pad5Spec(b);
      var n := |uri| + 5;
      assert pa == (uri + "part-") + Pad5(a) + sfx;
      assert pb == (uri + "part-") + Pad5(b) + sfx;
      assert |Pad5(a)| == |Pad5(b)|;
      assert Pad5(a) == pa[n..|pa| - |sfx|];
      assert Pad5(b) == pb[n..|pb| - |sfx|];
      Pad5Injective(a, b);
    }
  }

  /** What `write_row_to_file` stores in cell `i` of a row, or the error it raises there. */
  function CellAt(protocol: Protocol, str: Value -> string, b64: Value -> string, columns: seq<Column>,
                  i: nat, v: Value): (r: Result<Value, string>)
    ensures protocol == S3 ==> r == Success(BaseCell(str, v))
    ensures protocol == Bq ==>
      (r.Success? <==> i < |columns| && TypeMapping(columns[i].dataType).Some?)
  {
    match protocol
    case S3 => Success(BaseCell(str, v))
    case Bq =>
      if i >= |columns| then Failure("IndexError: list index out of range")
      else match TypeMapping(columns[i].dataType)
        case None => Failure(KeyError(columns[i].dataType))
        case Some(t) => Success(BqCell(str, b64, t, v))
  }

  /** The position of the first cell `write_row_to_file` cannot convert, or the row's length. */
  function FirstBadCell(protocol: Protocol, str: Value -> string, b64: Value -> string, columns: seq<Column>,
                        row: seq<Value>, from: nat): (k: nat)
    requires from <= |row|
    ensures from <= k <= |row|
    ensures forall i :: from <= i < k ==> CellAt(protocol, str, b64, columns, i, row[i]).Success?
    ensures k < |row| ==> CellAt(protocol, str, b64, columns, k, row[k]).Failure?
    decreases |row| - from
  {
    if from == |row| || CellAt(protocol, str, b64, columns, from, row[from]).Failure? then from
    else FirstBadCell(protocol, str, b64, columns, row, from + 1)
  }

  /** Whether `json.dump` can write a cell: `None`, text, numbers and booleans; not `bytes`,
      `datetime`, `date`, `time`, `Decimal` or `timedelta`. */
  predicate Serializable(v: Value)
  {
    !(v.Bytes? || v.DateTime? || v.Date? || v.Time? || v.Dec? || v.Interval?)
  }

  /** The Python type name `json.dump` reports for a cell it cannot write. */
  function TypeName(v: Value): string
    requires !Serializable(v)
  {
    match v
    case Bytes(_) => "bytes"
    case DateTime(_) => "datetime"
    case Date(_) => "date"
    case Time(_) => "time"
    case Dec(_) => "Decimal"
    case Interval(_) => "timedelta"
  }

  /** The position of the first field `json.dump` cannot write, or the line's length. */
  function FirstUnserializable(line: Line): (k: nat)
    ensures k <= |line|
    ensures forall i :: 0 <= i < k ==> Serializable(line[i].1)
    ensures k < |line| ==> !Serializable(line[k].1)
  {
    if line == [] || !Serializable(line[0].1) then 0 else 1 + FirstUnserializable(line[1..])
  }

  /** `json.dump` of an encoded row: the line itself when every value can be written, or the
      `TypeError` of the first one that cannot. */
  function Dump(line: Line): (r: Result<Line, string>)
    ensures r.Success? <==> forall i :: 0 <= i < |line| ==> Serializable(line[i].1)
    ensures r.Success? ==> r.value == line
    ensures r.Failure? ==> exists i :: 0 <= i < |line| && !Serializable(line[i].1) &&
                                       r.error == "TypeError: Object of type " + TypeName(line[i].1) + " is not JSON serializable"
  {
    var k := FirstUnserializable(line);
    if k < |line| then Failure("TypeError: Object of type " + TypeName(line[k].1) + " is not JSON serializable")
    else Success(line)
  }

  /** The converted cells of a row that converts. */
  function Converted(protocol: Protocol, str: Value -> string, b64: Value -> string, columns: seq<Column>,
                     row: seq<Value>): (cells: seq<Value>)
    requires FirstBadCell(protocol, str, b64, columns, row, 0) == |row|
    ensures |cells| == |row|
    ensures forall i :: 0 <= i < |row| ==> Success(cells[i]) == CellAt(protocol, str, b64, columns, i, row[i])
  {
    seq(|row|, i requires 0 <= i < |row| => CellAt(protocol, str, b64, columns, i, row[i]).value)
  }

  /** The whole encoding of one row: every cell converted, then the sparse pairing with the
      column names, then `json.dump`; or the error of the first cell that cannot be converted,
      or that of the first field `json.dump` cannot write. */
  function EncodeRow(protocol: Protocol, str: Value -> string, b64: Value -> string, columns: seq<Column>,
                     names: seq<string>, row: seq<Value>): (r: Result<Line, string>)
  {
    var k := FirstBadCell(protocol, str, b64, columns, row, 0);
    if k < |row| then Failure(CellAt(protocol, str, b64, columns, k, row[k]).error)
    else Dump(Sparse(names, Converted(protocol, str, b64, columns, row)))
  }

  /** The fields of the sparse pairing can all be written exactly when every paired cell can:
      the null cells it drops can be written too. */
  lemma {:induction false} SparseSerializable(names: seq<string>, cells: seq<Value>)
    ensures (forall i :: 0 <= i < |Sparse(names, cells)| ==> Serializable(Sparse(names, cells)[i].1)) <==>
            (forall i :: 0 <= i < |names| && i < |cells| ==> Serializable(cells[i]))
  {
    if names != [] && cells != [] {
      SparseSerializable(names[1..], cells[1..]);
      SparseCons(names, cells);
      CellsSerializableCons(names, cells);
      if cells[0] != Null {
        LineSerializableCons((names[0], cells[0]), Sparse(names[1..], cells[1..]));
      }
    }
  }

  lemma CellsSerializableCons(names: seq<string>, cells: seq<Value>)
    requires names != [] && cells != []
    ensures (forall i :: 0 <= i < |names| && i < |cells| ==> Serializable(cells[i])) <==>
            Serializable(cells[0]) &&
            (forall i :: 0 <= i < |names[1..]| && i < |cells[1..]| ==> Serializable(cells[1..][i]))
  {
    if Serializable(cells[0]) &&
       (forall i :: 0 <= i < |names[1..]| && i < |cells[1..]| ==> Serializable(cells[1..][i])) {
      forall i | 0 <= i < |names| && i < |cells|
        ensures Serializable(cells[i])
      {
        if i > 0 {
          assert cells[1..][i - 1] == cells[i];
        }
      }
    }
  }

  lemma LineSerializableCons(p: (string, Value), line: Line)
    ensures (forall i :: 0 <= i < |[p] + line| ==> Serializable(([p] + line)[i].1)) <==>
            Serializable(p.1) && (forall i :: 0 <= i < |line| ==> Serializable(line[i].1))
  {
    var l := [p] + line;
    assert forall i :: 0 <= i < |line| ==> line[i] == l[i + 1];
    assert l[0] == p;
  }

  /** A row encodes exactly when every cell converts and every converted cell paired with a
      name can be written; after a successful `prepare`, with a row no wider than the table,
      every cell converts. */
  lemma EncodeRowTotal(protocol: Protocol, str: Value -> string, b64: Value -> string, columns: seq<Column>,
                       names: seq<string>, row: seq<Value>)
    requires protocol == Bq ==> Schema(columns).Success? && |row| <= |columns|
    ensures FirstBadCell(protocol, str, b64, columns, row, 0) == |row|
    ensures EncodeRow(protocol, str, b64, columns, names, row).Success? <==>
      forall i :: 0 <= i < |names| && i < |row| ==> Serializable(CellAt(protocol, str, b64, columns, i, row[i]).value)
  {
    forall i | 0 <= i < |row|
      ensures CellAt(protocol, str, b64, columns, i, row[i]).Success?
    {
    }
    var cells := Converted(protocol, str, b64, columns, row);
    SparseSerializable(names, cells);
    assert forall i :: 0 <= i < |names| && i < |row| ==>
      cells[i] == CellAt(protocol, str, b64, columns, i, row[i]).value;
  }

  /** An S3 destination writes a row exactly when no cell paired with a name is a `bytes`,
      `date`, `time`, `Decimal` or `timedelta`: only `datetime.datetime` is turned into text. */
  lemma S3Encodes(str: Value -> string, b64: Value -> string, columns: seq<Column>, names: seq<string>,
                  row: seq<Value>)
    ensures EncodeRow(S3, str, b64, columns, names, row).Success? <==>
      forall i :: 0 <= i < |names| && i < |row| ==>
        !(row[i].Bytes? || row[i].Date? || row[i].Time? || row[i].Dec? || row[i].Interval?)
  {
    EncodeRowTotal(S3, str, b64, columns, names, row);
    assert forall i :: 0 <= i < |names| && i < |row| ==>
      (Serializable(CellAt(S3, str, b64, columns, i, row[i]).value) <==>
       !(row[i].Bytes? || row[i].Date? || row[i].Time? || row[i].Dec? || row[i].Interval?));
  }

  /** A BigQuery destination cannot write a row holding a `Decimal` in a `DECIMAL` or `NUMERIC`
      column: the conversion leaves it as it is and `json.dump` raises, if no earlier cell has. */
  lemma BqDecimalRaises(str: Value -> string, b64: Value -> string, columns: seq<Column>, names: seq<string>,
                        row: seq<Value>, i: nat)
    requires i < |names| && i < |row| && i < |columns| && row[i].Dec?
    requires TypeMapping(columns[i].dataType) == Some(BqDecimal)
    ensures EncodeRow(Bq, str, b64, columns, names, row).Failure?
  {
    if FirstBadCell(Bq, str, b64, columns, row, 0) == |row| {
      var cells := Converted(Bq, str, b64, columns, row);
      SparseSerializable(names, cells);
      assert !Serializable(cells[i]);
    }
  }

  /** A destination object of either registered class. */
  class Destination {
    const protocol: Protocol
    const uri: string
    /** The sensor's `columns`, `compression` and `output_format`. */
    const columns: seq<Column>
    const compression: string
    const outputFormat: string
    /** `str()` and `base64.b64encode(...).decode()` of a cell. */
    const str: Value -> string
    const b64: Value -> string

    var batchNum: nat
    var colNames: seq<string>
    var schema: seq<SchemaField>
    /** Every transfer made so far, in order. */
    var log: seq<Transfer>

    constructor(protocol: Protocol, uri: string, columns: seq<Column>, compression: string,
                outputFormat: string, str: Value -> string, b64: Value -> string)
      ensures this.protocol == protocol && this.uri == uri && this.columns == columns
      ensures this.compression == compression && this.outputFormat == outputFormat
      ensures this.str == str && this.b64 == b64
      ensures batchNum == 0 && colNames == [] && schema == [] && log == []
    {
      this.protocol := protocol;
      this.uri := uri;
      this.columns := columns;
      this.compression := compression;
      this.outputFormat := outputFormat;
      this.str := str;
      this.b64 := b64;
      batchNum := 0;
      colNames := [];
      schema := [];
      log := [];
    }

    /** The transfers `prepare` makes: none for S3; for BigQuery, drop and re-create the table
        with the schema. */
    function PrepareLog(): seq<Transfer>
      requires protocol == Bq ==> Schema(columns).Success?
    {
      if protocol == S3 then [] else [DeleteTable(uri), CreateTable(uri, Schema(columns).value)]
    }

    /** Whether `prepare` succeeds, and the error it raises otherwise. */
    function PrepareOutcome(): Outcome<string>
    {
      if protocol == S3 then Pass
      else if outputFormat != "json" then Fail("AssertionError")
      else if Schema(columns).Failure? then Fail(Schema(columns).error)
      else Pass
    }

    /** The transfer of staging file number `k`. */
    function BatchTransfer(k: nat, lines: seq<Line>): Transfer
    {
      if protocol == S3 then Upload(Part(uri, k, compression), lines) else LoadAppend(uri, lines)
    }

    /** The transfers of consecutive staging files, numbered from `k`. */
    function BatchLog(k: nat, files: seq<seq<Line>>): (ts: seq<Transfer>)
      ensures |ts| == |files|
      decreases |files|
    {
      if files == [] then [] else [BatchTransfer(k, files[0])] + BatchLog(k + 1, files[1..])
    }

    /** Transfer `i` of the log is that of staging file `k + i`. */
    lemma {:induction false} BatchLogAt(k: nat, files: seq<seq<Line>>)
      ensures forall i :: 0 <= i < |files| ==> BatchLog(k, files)[i] == BatchTransfer(k + i, files[i])
      decreases |files|
    {
      if files != [] {
        BatchLogAt(k + 1, files[1..]);
        forall i | 0 <= i < |files| ensures BatchLog(k, files)[i] == BatchTransfer(k + i, files[i]) {
          if i > 0 {
            assert BatchLog(k, files)[i] == BatchLog(k + 1, files[1..])[i - 1];
          }
        }
      }
    }

    /** One more staging file adds its transfer at the end of the log. */
    lemma {:induction false} BatchLogAppend(k: nat, files: seq<seq<Line>>, file: seq<Line>)
      ensures BatchLog(k, files + [file]) == BatchLog(k, files) + [BatchTransfer(k + |files|, file)]
      decreases |files|
    {
      if files == [] {
        assert files + [file] == [file];
      } else {
        assert (files + [file])[1..] == files[1..] + [file];
        BatchLogAppend(k + 1, files[1..], file);
      }
    }

    /** The transfers `finish` makes: the empty `_SUCCESS` marker for S3, nothing for BigQuery. */
    function FinishLog(): seq<Transfer>
    {
      if protocol == S3 then [Upload(Named(uri + "_SUCCESS"), [])] else []
    }

    /** `prepare`: reset the batch counter, record the column names, then the class's own
        preparation. BigQuery asserts JSON output and looks every column type up before it
        deletes and re-creates the table. */
    method Prepare() returns (o: Outcome<string>)
      modifies this
      ensures batchNum == 0 && colNames == Names(columns)
      ensures o == PrepareOutcome()
      ensures o.Pass? ==> log == old(log) + PrepareLog()
      ensures o.Fail? ==> log == old(log)
      ensures o.Pass? && protocol == Bq ==> schema == Schema(columns).value
      ensures (protocol == S3 || o.Fail?) ==> schema == old(schema)
    {
      batchNum := 0;
      var names: seq<string> := [];
      for i := 0 to |columns|
        invariant |names| == i && forall j :: 0 <= j < i ==> names[j] == columns[j].name
      {
        names := names + [columns[i].name];
      }
      colNames := names;
      if protocol == S3 {
        return Pass;
      }
      if outputFormat != "json" {
        return Fail("AssertionError");
      }
      var bad := CheckTypes();
      if bad < |columns| {
        return Fail(KeyError(columns[bad].dataType));
      }
      var fields := BuildSchema();
      schema := fields;
      log := log + [DeleteTable(uri), CreateTable(uri, fields)];
      return Pass;
    }

    /** The lookup loop that runs before anything is deleted: the first unlisted column. */
    method CheckTypes() returns (bad: nat)
      ensures bad == FirstUnmapped(columns)
    {
      for i := 0 to |columns|
        invariant forall j :: 0 <= j < i ==> TypeMapping(columns[j].dataType).Some?
      {
        if TypeMapping(columns[i].dataType).None? {
          FirstUnmappedAt(columns, i);
          return i;
        }
      }
      FirstUnmappedAt(columns, |columns|);
      return |columns|;
    }

    /** The `schema.append` loop. */
    method BuildSchema() returns (fields: seq<SchemaField>)
      requires Schema(columns).Success?
      ensures fields == Schema(columns).value
    {
      SchemaFields(columns);
      fields := [];
      for i := 0 to |columns|
        invariant |fields| == i
        invariant forall j :: 0 <= j < i ==> fields[j] == FieldOf(columns[j])
      {
        var t := TypeMapping(columns[i].dataType).value;
        var field := SchemaField(columns[i].name, t, if columns[i].nullable then Nullable else Required);
        fields := fields + [field];
      }
    }

    /** `append_data`: the class's transfer of the staging file, then the counter moves on. */
    method AppendData(lines: seq<Line>)
      modifies this
      ensures log == old(log) + [BatchTransfer(old(batchNum), lines)]
      ensures batchNum == old(batchNum) + 1
      ensures colNames == old(colNames) && schema == old(schema)
    {
      if protocol == S3 {
        log := log + [Upload(Part(uri, batchNum, compression), lines)];
      } else {
        log := log + [LoadAppend(uri, lines)];
      }
      batchNum := batchNum + 1;
    }

    /** `finish`. */
    method Finish()
      modifies this
      ensures log == old(log) + FinishLog()
      ensures batchNum == old(batchNum) && colNames == old(colNames) && schema == old(schema)
    {
      if protocol == S3 {
        log := log + [Upload(Named(uri + "_SUCCESS"), [])];
      }
    }

    method GetNextBatchNum() returns (n: nat)
      ensures n == batchNum
    {
      return batchNum;
    }

    /** `write_row_to_file`: convert the cells of the row in place, left to right, then encode
        it. A cell that cannot be converted raises, leaving the cells before it converted. */
    method WriteRowToFile(row: array<Value>) returns (r: Result<Line, string>)
      modifies row
      ensures r == EncodeRow(protocol, str, b64, columns, colNames, old(row[..]))
      ensures var k := FirstBadCell(protocol, str, b64, columns, old(row[..]), 0);
        forall i :: 0 <= i < row.Length ==>
          row[i] == if i < k then CellAt(protocol, str, b64, columns, i, old(row[i])).value else old(row[i])
    {
      ghost var cells := row[..];
      ghost var done: seq<Value> := [];
      var i := 0;
      while i < row.Length
        invariant 0 <= i <= row.Length && |done| == i
        invariant row[..] == done + cells[i..]
        invariant forall j :: 0 <= j < i ==> CellAt(protocol, str, b64, columns, j, cells[j]) == Success(done[j])
      {
        assert row[i] == cells[i];
        var c := CellAt(protocol, str, b64, columns, i, row[i]);
        if c.Failure? {
          EncodeRowFails(protocol, str, b64, columns, colNames, cells, i);
          PrefixConverted(protocol, str, b64, columns, cells, done);
          return Failure(c.error);
        }
        ghost var before := row[..];
        row[i] := c.value;
        assert row[..] == before[i := c.value];
        ConvertOne(done, cells, c.value);
        done := done + [c.value];
        i := i + 1;
      }
      assert row[..] == done;
      PrefixConverted(protocol, str, b64, columns, cells, done);
      FirstBadCellAt(protocol, str, b64, columns, cells, |cells|);
      EncodeRowConverted(protocol, str, b64, columns, colNames, cells, row[..]);
      return Dump(Sparse(colNames, row[..]));
    }
  }

  lemma ConvertOne(done: seq<Value>, cells: seq<Value>, v: Value)
    requires |done| < |cells|
    ensures (done + cells[|done|..])[|done| := v] == (done + [v]) + cells[|done| + 1..]
  {
  }

  /** The cells after converting the first `|done|` of them in place. */
  lemma PrefixConverted(protocol: Protocol, str: Value -> string, b64: Value -> string, columns: seq<Column>,
                        cells: seq<Value>, done: seq<Value>)
    requires |done| <= |cells|
    requires forall j :: 0 <= j < |done| ==> CellAt(protocol, str, b64, columns, j, cells[j]) == Success(done[j])
    ensures forall j :: 0 <= j < |cells| ==>
      (done + cells[|done|..])[j] == if j < |done| then CellAt(protocol, str, b64, columns, j, cells[j]).value else cells[j]
  {
  }

  lemma {:induction false} FirstUnmappedAt(columns: seq<Column>, i: nat)
    requires i <= |columns|
    requires i < |columns| ==> TypeMapping(columns[i].dataType).None?
    requires forall j :: 0 <= j < i ==> TypeMapping(columns[j].dataType).Some?
    ensures FirstUnmapped(columns) == i
  {
    if i > 0 {
      FirstUnmappedAt(columns[1..], i - 1);
    }
  }

  lemma {:induction false} FirstBadCellAt(protocol: Protocol, str: Value -> string, b64: Value -> string,
                                          columns: seq<Column>, row: seq<Value>, i: nat)
    requires i <= |row|
    requires forall j :: 0 <= j < i ==> CellAt(protocol, str, b64, columns, j, row[j]).Success?
    requires i < |row| ==> CellAt(protocol, str, b64, columns, i, row[i]).Failure?
    ensures FirstBadCell(protocol, str, b64, columns, row, 0) == i
  {
  }

  /** A row whose cell `i` is the first that cannot be converted raises that cell's error. */
  lemma EncodeRowFails(protocol: Protocol, str: Value -> string, b64: Value -> string, columns: seq<Column>,
                       names: seq<string>, cells: seq<Value>, i: nat)
    requires i < |cells|
    requires forall j :: 0 <= j < i ==> CellAt(protocol, str, b64, columns, j, cells[j]).Success?
    requires CellAt(protocol, str, b64, columns, i, cells[i]).Failure?
    ensures FirstBadCell(protocol, str, b64, columns, cells, 0) == i
    ensures EncodeRow(protocol, str, b64, columns, names, cells) == Failure(CellAt(protocol, str, b64, columns, i, cells[i]).error)
  {
    FirstBadCellAt(protocol, str, b64, columns, cells, i);
  }

  /** A row whose every cell converts encodes to `json.dump` of the sparse pairing of its
      converted cells. */
  lemma EncodeRowConverted(protocol: Protocol, str: Value -> string, b64: Value -> string, columns: seq<Column>,
                           names: seq<string>, cells: seq<Value>, converted: seq<Value>)
    requires |converted| == |cells|
    requires forall j :: 0 <= j < |cells| ==> CellAt(protocol, str, b64, columns, j, cells[j]).Success?
    requires forall j :: 0 <= j < |cells| ==> converted[j] == CellAt(protocol, str, b64, columns, j, cells[j]).value
    ensures EncodeRow(protocol, str, b64, columns, names, cells) == Dump(Sparse(names, converted))
  {
    FirstBadCellAt(protocol, str, b64, columns, cells, |cells|);
    assert converted == Converted(protocol, str, b64, columns, cells);
  }

  /** The schema field of one column whose type the table lists. */
  function FieldOf(c: Column): SchemaField
    requires TypeMapping(c.dataType).Some?
  {
    SchemaField(c.name, TypeMapping(c.dataType).value, if c.nullable then Nullable else Required)
  }

  /** A successful schema is the fields of the columns, one each, in order. */
  lemma SchemaFields(columns: seq<Column>)
    requires Schema(columns).Success?
    ensures forall i :: 0 <= i < |columns| ==> TypeMapping(columns[i].dataType).Some?
    ensures |Schema(columns).value| == |columns|
    ensures forall i :: 0 <= i < |columns| ==> Schema(columns).value[i] == FieldOf(columns[i])
  {
  }
}
