/** toRows: decoding the cells of query result rows, positionally, against the
    flattened field list, into records that map field names to scalars. */
module Decode {
  import opened Errors
  import opened Strconv
  import opened Schema

  /** A float64, kept as its IEEE-754 bit pattern; nothing here looks inside it. */
  datatype Float64 = Float64(bits: bv64)

  /** Float parsing (strconv.ParseFloat with 64 bits) is not modelled: it is a
      parameter, `None` standing for its syntax and range errors. */
  type FloatParser = string -> Option<Float64>

  /** A result cell: the service sends each value as a string, or null. */
  datatype Cell = NullCell | StrCell(s: string)

  type Row = seq<Cell>

  /** A decoded scalar: string, int64, float64, bool or null. */
  datatype Value = Null | Str(s: string) | Int(i: int) | Float(f: Float64) | Bool(b: bool)

  type Record = map<string, Value>

  /** One cell against its field: null stays null whatever the declared type;
      STRING passes through; INTEGER and TIMESTAMP parse as base-10 int64, FLOAT
      as float64, BOOLEAN as bool, each failing with the field name and the raw
      text; every other declared type is unsupported. */
  function DecodeCell(f: FieldType, c: Cell, parseFloat: FloatParser): (r: Result<Value>)
    ensures c.NullCell? ==> r == Ok(Null)
    ensures r.Err? ==>
      c.StrCell? && (r.error == InvalidValue(f.name, c.s) || r.error == UnsupportedFieldType(f.ftype, f.name))
    ensures r.Ok? && c.StrCell? ==>
      (r.value.Str? <==> f.ftype == "STRING") &&
      (r.value.Int? <==> f.ftype == "INTEGER" || f.ftype == "TIMESTAMP") &&
      (r.value.Float? <==> f.ftype == "FLOAT") &&
      (r.value.Bool? <==> f.ftype == "BOOLEAN")
    ensures r.Ok? && r.value.Int? ==> MinInt64 <= r.value.i <= MaxInt64
  {
    match c
    case NullCell => Ok(Null)
    case StrCell(s) =>
      if f.ftype == "STRING" then Ok(Str(s))
      else if f.ftype == "INTEGER" || f.ftype == "TIMESTAMP" then
        match ParseInt64(s)
        case Some(n) => Ok(Int(n))
        case None => Err(InvalidValue(f.name, s))
      else if f.ftype == "FLOAT" then
        match parseFloat(s)
        case Some(x) => Ok(Float(x))
        case None => Err(InvalidValue(f.name, s))
      else if f.ftype == "BOOLEAN" then
        match ParseBool(s)
        case Some(b) => Ok(Bool(b))
        case None => Err(InvalidValue(f.name, s))
      else Err(UnsupportedFieldType(f.ftype, f.name))
  }

  /** The error contract of a single cell, case by case. */
  lemma DecodeCellContract(f: FieldType, c: Cell, parseFloat: FloatParser)
    ensures c == NullCell ==> DecodeCell(f, c, parseFloat) == Ok(Null)
    ensures c.StrCell? && f.ftype == "STRING" ==> DecodeCell(f, c, parseFloat) == Ok(Str(c.s))
    ensures c.StrCell? && (f.ftype == "INTEGER" || f.ftype == "TIMESTAMP") ==>
      (DecodeCell(f, c, parseFloat).Ok? <==> ParseInt64(c.s).Some?) &&
      (DecodeCell(f, c, parseFloat).Err? ==> DecodeCell(f, c, parseFloat).error == InvalidValue(f.name, c.s)) &&
      (DecodeCell(f, c, parseFloat).Ok? ==> DecodeCell(f, c, parseFloat).value == Int(ParseInt64(c.s).value))
    ensures c.StrCell? && f.ftype == "BOOLEAN" ==>
      (DecodeCell(f, c, parseFloat).Ok? <==> ParseBool(c.s).Some?) &&
      (DecodeCell(f, c, parseFloat).Err? ==> DecodeCell(f, c, parseFloat).error == InvalidValue(f.name, c.s)) &&
      (DecodeCell(f, c, parseFloat).Ok? ==> DecodeCell(f, c, parseFloat).value == Bool(ParseBool(c.s).value))
    ensures c.StrCell? && f.ftype == "FLOAT" ==>
      (DecodeCell(f, c, parseFloat).Ok? <==> parseFloat(c.s).Some?) &&
      (DecodeCell(f, c, parseFloat).Err? ==> DecodeCell(f, c, parseFloat).error == InvalidValue(f.name, c.s)) &&
      (DecodeCell(f, c, parseFloat).Ok? ==> DecodeCell(f, c, parseFloat).value == Float(parseFloat(c.s).value))
    ensures c.StrCell? && f.ftype !in {"STRING", "INTEGER", "TIMESTAMP", "FLOAT", "BOOLEAN"} ==>
      DecodeCell(f, c, parseFloat) == Err(UnsupportedFieldType(f.ftype, f.name))
  {
  }

  /** One row: cell i decoded against field i, from left to right, each value
      stored under its field's name (a later field of the same name overwrites
      an earlier one); the first failing cell fails the row. */
  function DecodeRow(names: seq<FieldType>, cells: Row, parseFloat: FloatParser): (r: Result<Record>)
    requires |cells| <= |names|
    ensures r.Err? ==> exists i | 0 <= i < |cells| :: DecodeCell(names[i], cells[i], parseFloat) == Err(r.error)
    decreases |cells|
  {
    if cells == [] then Ok(map[])
    else
      var i := |cells| - 1;
      match DecodeRow(names, cells[..i], parseFloat)
      case Err(e) => Err(e)
      case Ok(m) =>
        match DecodeCell(names[i], cells[i], parseFloat)
        case Err(e) => Err(e)
        case Ok(v) => Ok(m[names[i].name := v])
  }

  /** All rows, in order; the first failing row fails the whole result. */
  function DecodeRows(names: seq<FieldType>, rows: seq<Row>, parseFloat: FloatParser): (r: Result<seq<Record>>)
    requires forall k | 0 <= k < |rows| :: |rows[k]| <= |names|
    ensures r.Ok? ==> |r.value| == |rows|
    ensures r.Ok? ==> forall k | 0 <= k < |rows| :: DecodeRow(names, rows[k], parseFloat) == Ok(r.value[k])
    ensures r.Ok? <==> forall k | 0 <= k < |rows| :: DecodeRow(names, rows[k], parseFloat).Ok?
    decreases |rows|
  {
    if rows == [] then Ok([])
    else
      var n := |rows| - 1;
      match DecodeRows(names, rows[..n], parseFloat)
      case Err(e) => Err(e)
      case Ok(rs) =>
        match DecodeRow(names, rows[n], parseFloat)
        case Err(e) => Err(e)
        case Ok(m) => Ok(rs + [m])
  }

  /** `i` is the last position among the first `n` fields that carries the
      name of field `i`, so its value is the one a record keeps. */
  predicate LastWithName(names: seq<FieldType>, n: nat, i: nat)
    requires n <= |names|
  {
    i < n && forall j | i < j < n :: names[j].name != names[i].name
  }

  /** A decoded row holds exactly the names of its cells' fields. */
  lemma {:induction false} DecodeRowKeys(names: seq<FieldType>, cells: Row, parseFloat: FloatParser)
    requires |cells| <= |names|
    requires DecodeRow(names, cells, parseFloat).Ok?
    ensures DecodeRow(names, cells, parseFloat).value.Keys == set i | 0 <= i < |cells| :: names[i].name
    decreases |cells|
  {
    if cells != [] {
      var n := |cells| - 1;
      DecodeRowKeys(names, cells[..n], parseFloat);
      assert (set i | 0 <= i < |cells| :: names[i].name) == (set i | 0 <= i < n :: names[i].name) + {names[n].name};
    }
  }

  /** Under each name, a decoded row holds the decoding of the last cell whose
      field carries that name; in particular a null cell stores null. */
  lemma {:induction false} DecodeRowValues(names: seq<FieldType>, cells: Row, parseFloat: FloatParser)
    requires |cells| <= |names|
    requires DecodeRow(names, cells, parseFloat).Ok?
    ensures forall i | 0 <= i < |cells| && LastWithName(names, |cells|, i) ::
      DecodeCell(names[i], cells[i], parseFloat).Ok? &&
      names[i].name in DecodeRow(names, cells, parseFloat).value &&
      DecodeRow(names, cells, parseFloat).value[names[i].name] == DecodeCell(names[i], cells[i], parseFloat).value
    decreases |cells|
  {
    if cells != [] {
      var n := |cells| - 1;
      var prefix := cells[..n];
      DecodeRowValues(names, prefix, parseFloat);
      forall i | 0 <= i < |cells| && LastWithName(names, |cells|, i)
        ensures DecodeCell(names[i], cells[i], parseFloat).Ok?
        ensures names[i].name in DecodeRow(names, cells, parseFloat).value
        ensures DecodeRow(names, cells, parseFloat).value[names[i].name] == DecodeCell(names[i], cells[i], parseFloat).value
      {
        if i < n {
          assert prefix[i] == cells[i];
          assert LastWithName(names, |prefix|, i);
        }
      }
    }
  }

  /** A row fails exactly when one of its cells fails, and then with the error of
      the first failing cell. */
  lemma {:induction false} DecodeRowErr(names: seq<FieldType>, cells: Row, parseFloat: FloatParser)
    requires |cells| <= |names|
    ensures DecodeRow(names, cells, parseFloat).Err? <==>
      exists i | 0 <= i < |cells| :: DecodeCell(names[i], cells[i], parseFloat).Err?
    ensures DecodeRow(names, cells, parseFloat).Err? ==>
      exists i | 0 <= i < |cells| ::
        DecodeCell(names[i], cells[i], parseFloat) == Err(DecodeRow(names, cells, parseFloat).error) &&
        forall j | 0 <= j < i :: DecodeCell(names[j], cells[j], parseFloat).Ok?
    decreases |cells|
  {
    if cells != [] {
      var n := |cells| - 1;
      var prefix := cells[..n];
      DecodeRowErr(names, prefix, parseFloat);
      var p := DecodeRow(names, prefix, parseFloat);
      if p.Err? {
        DecodeRowErrStep(names, cells, parseFloat);
        var i :| 0 <= i < n && DecodeCell(names[i], prefix[i], parseFloat) == Err(p.error) &&
          forall j | 0 <= j < i :: DecodeCell(names[j], prefix[j], parseFloat).Ok?;
        assert prefix[i] == cells[i];
        forall j | 0 <= j < i
          ensures DecodeCell(names[j], cells[j], parseFloat).Ok?
        {
          assert prefix[j] == cells[j];
        }
      } else {
        forall j | 0 <= j < n
          ensures DecodeCell(names[j], cells[j], parseFloat).Ok?
        {
          assert prefix[j] == cells[j];
        }
        var c := DecodeCell(names[n], cells[n], parseFloat);
        if c.Err? {
          assert DecodeRow(names, cells, parseFloat) == Err(c.error);
        } else {
          assert DecodeRow(names, cells, parseFloat) == Ok(p.value[names[n].name := c.value]);
        }
      }
    }
  }

  /** A row whose cells but the last already fail fails with the same error. */
  lemma DecodeRowErrStep(names: seq<FieldType>, cells: Row, parseFloat: FloatParser)
    requires |cells| <= |names| && cells != []
    requires DecodeRow(names, cells[..|cells| - 1], parseFloat).Err?
    ensures DecodeRow(names, cells, parseFloat) == DecodeRow(names, cells[..|cells| - 1], parseFloat)
  {
  }

  /** Once a prefix of a row fails, the row fails with the same error. */
  lemma {:induction false} DecodeRowErrExtends(names: seq<FieldType>, cells: Row, n: nat, parseFloat: FloatParser)
    requires |cells| <= |names| && n <= |cells|
    requires DecodeRow(names, cells[..n], parseFloat).Err?
    ensures DecodeRow(names, cells, parseFloat) == DecodeRow(names, cells[..n], parseFloat)
    decreases |cells|
  {
    if n < |cells| {
      var prefix := cells[..|cells| - 1];
      assert prefix[..n] == cells[..n];
      DecodeRowErrExtends(names, prefix, n, parseFloat);
      DecodeRowErrStep(names, cells, parseFloat);
    } else {
      assert cells[..n] == cells;
    }
  }

  /** Once a prefix of the rows fails, all the rows fail with the same error. */
  lemma {:induction false} DecodeRowsErrExtends(names: seq<FieldType>, rows: seq<Row>, n: nat, parseFloat: FloatParser)
    requires forall k | 0 <= k < |rows| :: |rows[k]| <= |names|
    requires n <= |rows|
    requires DecodeRows(names, rows[..n], parseFloat).Err?
    ensures DecodeRows(names, rows, parseFloat) == DecodeRows(names, rows[..n], parseFloat)
    decreases |rows| - n
  {
    if n < |rows| {
      var p := rows[..n + 1];
      assert p[..n] == rows[..n];
      assert DecodeRows(names, p, parseFloat) == DecodeRows(names, rows[..n], parseFloat);
      DecodeRowsErrExtends(names, rows, n + 1, parseFloat);
    } else {
      assert rows[..n] == rows;
    }
  }

  /** The rows fail exactly with the error of the first failing row: `k` is
      that row, and every row before it decodes. */
  lemma {:induction false} DecodeRowsErr(names: seq<FieldType>, rows: seq<Row>, parseFloat: FloatParser) returns (k: nat)
    requires forall j | 0 <= j < |rows| :: |rows[j]| <= |names|
    ensures DecodeRows(names, rows, parseFloat).Err? ==>
      k < |rows| &&
      DecodeRow(names, rows[k], parseFloat) == Err(DecodeRows(names, rows, parseFloat).error) &&
      forall j | 0 <= j < k :: DecodeRow(names, rows[j], parseFloat).Ok?
    decreases |rows|
  {
    k := 0;
    var r := DecodeRows(names, rows, parseFloat);
    if rows != [] && r.Err? {
      var n := |rows| - 1;
      var prefix := rows[..n];
      var p := DecodeRows(names, prefix, parseFloat);
      if p.Err? {
        DecodeRowsErrExtends(names, rows, n, parseFloat);
        k := DecodeRowsErr(names, prefix, parseFloat);
        assert prefix[k] == rows[k];
        forall j | 0 <= j < k
          ensures DecodeRow(names, rows[j], parseFloat).Ok?
        {
          assert prefix[j] == rows[j];
        }
      } else {
        k := n;
        forall j | 0 <= j < n
          ensures DecodeRow(names, rows[j], parseFloat).Ok?
        {
          assert prefix[j] == rows[j];
        }
        var c := DecodeRow(names, rows[n], parseFloat);
        assert c.Err? && r == Err(c.error);
      }
    }
  }

  /** The body of toRows' outer loop: a fresh record filled cell by cell, the
      declared type choosing the conversion; the first failing cell stops it. */
  method DecodeRowCells(names: seq<FieldType>, row: Row, parseFloat: FloatParser) returns (r: Result<Record>)
    requires |row| <= |names|
    ensures r == DecodeRow(names, row, parseFloat)
  {
    var result: Record := map[];
    for i := 0 to |row|
      invariant DecodeRow(names, row[..i], parseFloat) == Ok(result)
    {
      assert row[..i + 1][..i] == row[..i];
      var name, ftype := names[i].name, names[i].ftype;
      var cell := row[i];
      if cell.NullCell? {
        result := result[name := Null];
        continue;
      }
      var err: Option<Error> := None;
      if ftype == "STRING" {
        result := result[name := Str(cell.s)];
      } else if ftype == "INTEGER" || ftype == "TIMESTAMP" {
        var ival := ParseInt64(cell.s);
        if ival.None? {
          err := Some(InvalidValue(name, cell.s));
        } else {
          result := result[name := Int(ival.value)];
        }
      } else if ftype == "FLOAT" {
        var fval := parseFloat(cell.s);
        if fval.None? {
          err := Some(InvalidValue(name, cell.s));
        } else {
          result := result[name := Float(fval.value)];
        }
      } else if ftype == "BOOLEAN" {
        var bval := ParseBool(cell.s);
        if bval.None? {
          err := Some(InvalidValue(name, cell.s));
        } else {
          result := result[name := Bool(bval.value)];
        }
      } else {
        err := Some(UnsupportedFieldType(ftype, name));
      }
      if err.Some? {
        r := Err(err.value);
        assert DecodeRow(names, row[..i + 1], parseFloat) == r;
        DecodeRowErrExtends(names, row, i + 1, parseFloat);
        assert row[..|row|] == row;
        return;
      }
    }
    assert row[..|row|] == row;
    r := Ok(result);
  }

  /** toRows.  The field list is flattened first; then every row is decoded into
      a fresh record and appended to the results.  The first cell that fails to
      decode returns its error and no records.  A row with more cells than there
      are fields makes the source panic; that is excluded by the precondition. */
  method ToRows(fields: seq<TableField>, rows: seq<Row>, parseFloat: FloatParser) returns (r: Result<seq<Record>>)
    requires forall k | 0 <= k < |rows| :: |rows[k]| <= |fields|
    ensures r == DecodeRows(Flatten(fields), rows, parseFloat)
  {
    var names := FlattenFields(fields);
    var results: seq<Record> := [];
    for n := 0 to |rows|
      invariant DecodeRows(names, rows[..n], parseFloat) == Ok(results)
    {
      assert rows[..n + 1][..n] == rows[..n];
      var row := DecodeRowCells(names, rows[n], parseFloat);
      if row.Err? {
        r := Err(row.error);
        assert DecodeRows(names, rows[..n + 1], parseFloat) == r;
        DecodeRowsErrExtends(names, rows, n + 1, parseFloat);
        return;
      }
      results := results + [row.value];
    }
    assert rows[..|rows|] == rows;
    r := Ok(results);
  }
}
