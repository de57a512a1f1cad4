/** dumpCSV without the file: the header is the keys of the first record in
    increasing order, every record becomes one line of exactly that width, and
    the header line is prepended on request.  Also the choice of the writer's
    field delimiter. */
module CsvOut {
  import opened Errors
  import opened Strconv
  import opened Schema
  import opened Decode

  /** Go's `<=` on strings: lexicographic, comparing bytes.  On well-formed
      UTF-8, byte order is code point order, which is what `char` order is. */
  predicate LessEq(a: string, b: string)
    ensures a <= b ==> LessEq(a, b)
    ensures LessEq(a, b) && a != [] ==> b != [] && a[0] <= b[0]
    decreases |a|
  {
    a == [] || (b != [] && (a[0] < b[0] || (a[0] == b[0] && LessEq(a[1..], b[1..]))))
  }

  lemma {:induction false} LessEqReflexive(a: string)
    ensures LessEq(a, a)
    decreases |a|
  {
    if a != [] {
      LessEqReflexive(a[1..]);
    }
  }

  lemma {:induction false} LessEqTotal(a: string, b: string)
    ensures LessEq(a, b) || LessEq(b, a)
    decreases |a|
  {
    if a != [] && b != [] && a[0] == b[0] {
      LessEqTotal(a[1..], b[1..]);
    }
  }

  lemma {:induction false} LessEqAntisymmetric(a: string, b: string)
    requires LessEq(a, b) && LessEq(b, a)
    ensures a == b
    decreases |a|
  {
    if a != [] {
      LessEqAntisymmetric(a[1..], b[1..]);
      assert a == [a[0]] + a[1..] && b == [b[0]] + b[1..];
    }
  }

  lemma {:induction false} LessEqTransitive(a: string, b: string, c: string)
    requires LessEq(a, b) && LessEq(b, c)
    ensures LessEq(a, c)
    decreases |a|
  {
    if a != [] && a[0] == b[0] && b[0] == c[0] {
      LessEqTransitive(a[1..], b[1..], c[1..]);
    }
  }

  /** Sorted as sort.StringSlice sorts: in increasing order. */
  predicate Sorted(s: seq<string>)
  {
    forall i, j | 0 <= i < j < |s| :: LessEq(s[i], s[j])
  }

  /** Neighbours are in order; by transitivity the whole sequence is. */
  predicate AdjacentSorted(s: seq<string>)
  {
    forall i | 0 < i < |s| :: LessEq(s[i - 1], s[i])
  }

  lemma {:induction false} AdjacentSortedIsSorted(s: seq<string>)
    requires AdjacentSorted(s)
    ensures Sorted(s)
    decreases |s|
  {
    if |s| > 1 {
      AdjacentSortedIsSorted(s[1..]);
      forall j | 0 < j < |s| ensures LessEq(s[0], s[j]) {
        if j > 1 {
          assert s[1..][0] == s[1] && s[1..][j - 1] == s[j];
          LessEqTransitive(s[0], s[1], s[j]);
        }
      }
    }
  }

  lemma SortedHeadIsLeast(s: seq<string>, x: string)
    requires Sorted(s) && x in s
    ensures LessEq(s[0], x)
  {
    var k :| 0 <= k < |s| && s[k] == x;
    if k == 0 {
      LessEqReflexive(x);
    }
  }

  lemma SortedTail(s: seq<string>)
    requires Sorted(s) && s != []
    ensures Sorted(s[1..])
  {
    forall i, j | 0 <= i < j < |s| - 1 ensures LessEq(s[1..][i], s[1..][j]) {
      assert s[1..][i] == s[i + 1] && s[1..][j] == s[j + 1];
    }
  }

  /** Two sorted arrangements of the same strings are the same sequence: the
      order of the header does not depend on the order the keys were found in. */
  lemma {:induction false} SortedUnique(s: seq<string>, t: seq<string>)
    requires Sorted(s) && Sorted(t) && multiset(s) == multiset(t)
    ensures s == t
    decreases |s|
  {
    if s != [] {
      SortedHeadsEqual(s, t);
      TailMultiset(s);
      TailMultiset(t);
      SortedTail(s);
      SortedTail(t);
      SortedUnique(s[1..], t[1..]);
    }
  }

  /** Two sorted arrangements of the same strings start with the same one. */
  lemma SortedHeadsEqual(s: seq<string>, t: seq<string>)
    requires Sorted(s) && Sorted(t) && multiset(s) == multiset(t) && s != []
    ensures t != [] && s[0] == t[0]
  {
    assert s[0] in multiset(t);
    assert t != [] && t[0] in multiset(s);
    SortedHeadIsLeast(t, s[0]);
    SortedHeadIsLeast(s, t[0]);
    LessEqAntisymmetric(s[0], t[0]);
  }

  lemma TailMultiset(s: seq<string>)
    requires s != []
    ensures multiset(s[1..]) == multiset(s) - multiset{s[0]}
  {
    assert s == [s[0]] + s[1..];
  }

  /** The least string of a non-empty set. */
  lemma {:induction false} MinimumExists(s: set<string>)
    requires s != {}
    ensures exists m | m in s :: forall x | x in s :: LessEq(m, x)
    decreases s
  {
    var y :| y in s;
    LessEqReflexive(y);
    if s == {y} {
      assert forall x | x in s :: LessEq(y, x);
    } else {
      MinimumExists(s - {y});
      var m :| m in s - {y} && forall x | x in s - {y} :: LessEq(m, x);
      LessEqTotal(m, y);
      if LessEq(m, y) {
        assert forall x | x in s :: LessEq(m, x);
      } else {
        forall x | x in s ensures LessEq(y, x) {
          if x != y { LessEqTransitive(y, m, x); }
        }
        assert y in s;
      }
    }
  }

  /** Reference definition of the header: the keys in increasing order,
      taking the least remaining key each time. */
  ghost function SortedKeys(keys: set<string>): seq<string>
    decreases keys
  {
    if keys == {} then []
    else
      MinimumExists(keys);
      var m :| m in keys && forall x | x in keys :: LessEq(m, x);
      [m] + SortedKeys(keys - {m})
  }

  lemma {:induction false} SortedKeysSpec(keys: set<string>)
    ensures Sorted(SortedKeys(keys))
    ensures multiset(SortedKeys(keys)) == multiset(keys)
    decreases keys
  {
    if keys != {} {
      var s := SortedKeys(keys);
      var m := s[0];
      assert m in keys && forall x | x in keys :: LessEq(m, x);
      assert s[1..] == SortedKeys(keys - {m});
      SortedKeysSpec(keys - {m});
      assert multiset(keys) == multiset(keys - {m}) + multiset{m};
      forall j | 0 < j < |s| ensures LessEq(s[0], s[j]) {
        assert s[j] == s[1..][j - 1] && s[j] in multiset(s[1..]);
      }
      assert s == [m] + s[1..];
    }
  }

  /** The range loop over the first record: its keys, in whatever order the
      map yields them. */
  method CollectKeys(rec: Record) returns (fields: seq<string>)
    ensures multiset(fields) == multiset(rec.Keys)
  {
    fields := [];
    var rest := rec.Keys;
    while rest != {}
      invariant rest <= rec.Keys
      invariant multiset(fields) + multiset(rest) == multiset(rec.Keys)
      decreases rest
    {
      var key :| key in rest;
      fields := fields + [key];
      rest := rest - {key};
    }
  }

  /** Exchanges the neighbours at k - 1 and k. */
  method Swap(a: array<string>, k: nat)
    requires 0 < k < a.Length
    modifies a
    ensures a[k - 1] == old(a[k]) && a[k] == old(a[k - 1])
    ensures forall m | 0 <= m < a.Length && m != k - 1 && m != k :: a[m] == old(a[m])
    ensures multiset(a[..]) == old(multiset(a[..]))
  {
    a[k - 1], a[k] := a[k], a[k - 1];
  }

  /** One step of insertion sort: moves a[i] down into the sorted a[..i]. */
  method InsertAt(a: array<string>, i: nat)
    requires i < a.Length
    requires forall k | 0 < k < i :: LessEq(a[k - 1], a[k])
    modifies a
    ensures forall k | 0 < k <= i :: LessEq(a[k - 1], a[k])
    ensures multiset(a[..]) == old(multiset(a[..]))
  {
    var j := i;
    while j > 0 && !LessEq(a[j - 1], a[j])
      invariant 0 <= j <= i
      invariant forall k | 0 < k < j :: LessEq(a[k - 1], a[k])
      invariant forall k | j < k <= i :: LessEq(a[k - 1], a[k])
      invariant 0 < j < i ==> LessEq(a[j - 1], a[j + 1])
      invariant multiset(a[..]) == old(multiset(a[..]))
      decreases j
    {
      LessEqTotal(a[j - 1], a[j]);
      Swap(a, j);
      j := j - 1;
    }
  }

  /** fields.Sort(), as an insertion sort in place: afterwards the array is
      sorted and holds the same strings. */
  method SortFields(a: array<string>)
    modifies a
    ensures Sorted(a[..])
    ensures multiset(a[..]) == old(multiset(a[..]))
  {
    for i := 0 to a.Length
      invariant forall k | 0 < k < i :: LessEq(a[k - 1], a[k])
      invariant multiset(a[..]) == old(multiset(a[..]))
    {
      InsertAt(a, i);
    }
    AdjacentSortedIsSorted(a[..]);
  }

  /** `%v` of a decoded value: a string as it is, an int64 in decimal, a bool as
      true or false, null as <nil>; float printing is not modelled and is a
      parameter.  The int64 and bool texts parse back to the value. */
  function FormatValue(v: Value, formatFloat: Float64 -> string): (s: string)
    ensures v.Null? ==> s == "<nil>"
    ensures v.Str? ==> s == v.s
    ensures v.Bool? ==> ParseBool(s) == Some(v.b)
    ensures v.Int? && MinInt64 <= v.i <= MaxInt64 ==> ParseInt64(s) == Some(v.i)
    ensures v.Float? ==> s == formatFloat(v.f)
  {
    match v
    case Null => "<nil>"
    case Str(s) => s
    case Int(i) =>
      if MinInt64 <= i <= MaxInt64 then ParseFormatInt(i); FormatInt(i) else FormatInt(i)
    case Float(x) => formatFloat(x)
    case Bool(b) => FormatBool(b)
  }

  /** Printing a decoded STRING, INTEGER or BOOLEAN value and decoding the text
      against the same field type gives the value back. */
  lemma FormatThenDecode(f: FieldType, v: Value, parseFloat: FloatParser, formatFloat: Float64 -> string)
    requires v.Str? ==> f.ftype == "STRING"
    requires v.Int? ==> f.ftype in {"INTEGER", "TIMESTAMP"} && MinInt64 <= v.i <= MaxInt64
    requires v.Bool? ==> f.ftype == "BOOLEAN"
    requires v.Str? || v.Int? || v.Bool?
    ensures DecodeCell(f, StrCell(FormatValue(v, formatFloat)), parseFloat) == Ok(v)
  {
  }

  /** One data line: for each header field, the record's value printed, or ""
      when the record lacks that key. */
  function Line(header: seq<string>, rec: Record, formatFloat: Float64 -> string): (line: seq<string>)
    ensures |line| == |header|
    ensures forall i | 0 <= i < |header| && header[i] !in rec :: line[i] == ""
    ensures forall i | 0 <= i < |header| && header[i] in rec :: line[i] == FormatValue(rec[header[i]], formatFloat)
  {
    seq(|header|, i requires 0 <= i < |header| =>
      if header[i] in rec then FormatValue(rec[header[i]], formatFloat) else "")
  }

  /** The lines handed to the CSV writer: optionally the header, then one line
      per record, in record order. */
  function CsvLines(header: seq<string>, data: seq<Record>, printFields: bool, formatFloat: Float64 -> string): (lines: seq<seq<string>>)
    ensures |lines| == |data| + (if printFields then 1 else 0)
    ensures printFields ==> lines[0] == header
    ensures var d := if printFields then 1 else 0;
      forall k | 0 <= k < |data| :: lines[k + d] == Line(header, data[k], formatFloat)
  {
    var body := seq(|data|, k requires 0 <= k < |data| => Line(header, data[k], formatFloat));
    if printFields then [header] + body else body
  }

  /** The header of dumpCSV: the keys of the record, collected and then sorted
      in place. */
  method SortedHeader(rec: Record) returns (header: seq<string>)
    ensures header == SortedKeys(rec.Keys)
  {
    var keys := CollectKeys(rec);
    var fields := new string[|keys|](i requires 0 <= i < |keys| => keys[i]);
    assert fields[..] == keys;
    SortFields(fields);
    header := fields[..];
    SortedKeysSpec(rec.Keys);
    SortedUnique(header, SortedKeys(rec.Keys));
  }

  /** One line of dumpCSV, filled by index in header order. */
  method FormatLine(header: seq<string>, rec: Record, formatFloat: Float64 -> string) returns (line: seq<string>)
    ensures line == Line(header, rec, formatFloat)
  {
    var cells := new string[|header|];
    for i := 0 to |header|
      invariant forall c | 0 <= c < i :: cells[c] == Line(header, rec, formatFloat)[c]
    {
      if header[i] in rec {
        cells[i] := FormatValue(rec[header[i]], formatFloat);
      } else {
        cells[i] := "";
      }
    }
    line := cells[..];
  }

  /** The line building of dumpCSV.  `data[0]` on no records makes the source
      panic, hence the precondition. */
  method BuildCsvLines(data: seq<Record>, printFields: bool, formatFloat: Float64 -> string)
    returns (header: seq<string>, lines: seq<seq<string>>)
    requires |data| > 0
    ensures header == SortedKeys(data[0].Keys)
    ensures lines == CsvLines(header, data, printFields, formatFloat)
  {
    header := SortedHeader(data[0]);
    var out := new seq<string>[|data|];
    for num := 0 to |data|
      invariant forall k | 0 <= k < num :: out[k] == Line(header, data[k], formatFloat)
    {
      out[num] := FormatLine(header, data[num], formatFloat);
    }
    lines := out[..];
    assert lines == CsvLines(header, data, false, formatFloat);
    if printFields {
      lines := [header] + lines;
    }
  }

  /** The UTF-8 encoding of a character, byte by byte: one byte below 0x80,
      otherwise a lead byte that gives the length (110xxxxx, 1110xxxx,
      11110xxx) followed by 10xxxxxx continuation bytes, high bits first. */
  function Utf8Encode(c: char): (bytes: seq<nat>)
    ensures 1 <= |bytes| <= 4
    ensures forall i | 0 <= i < |bytes| :: bytes[i] < 256
    ensures forall i | 1 <= i < |bytes| :: 0x80 <= bytes[i] < 0xC0
    ensures (|bytes| == 1 <==> (c as int) < 0x80) && ((c as int) < 0x80 ==> bytes[0] == c as int)
  {
    var n := c as int;
    if n < 0x80 then [n]
    else if n < 0x800 then [0xC0 + n / 0x40, 0x80 + n % 0x40]
    else if n < 0x1_0000 then [0xE0 + n / 0x1000, 0x80 + (n / 0x40) % 0x40, 0x80 + n % 0x40]
    else [0xF0 + n / 0x4_0000, 0x80 + (n / 0x1000) % 0x40, 0x80 + (n / 0x40) % 0x40, 0x80 + n % 0x40]
  }

  /** The first byte of the UTF-8 encoding of `c`, read back as a character:
      what `rune(delim[0])` yields for a delimiter that starts with `c`.  For a
      non-ASCII character that is its lead byte, not the character. */
  function FirstByte(c: char): (b: char)
    ensures (b as int) < 256
    ensures b as int == Utf8Encode(c)[0]
    ensures (c as int) < 0x80 ==> b == c
  {
    Utf8Encode(c)[0] as char
  }

  /** The CSV writer's field delimiter: the default comma when none is given,
      a tab for the word "tab", otherwise the first byte of the argument. */
  function Comma(delim: string): (c: char)
    ensures (c as int) < 256
    ensures delim == "" ==> c == ','
    ensures delim == "tab" ==> c == '\t'
    ensures delim != "" && delim != "tab" ==> c as int == Utf8Encode(delim[0])[0]
    ensures delim != "" && delim != "tab" && (delim[0] as int) < 0x80 ==> c == delim[0]
  {
    if delim == "" then ','
    else if delim == "tab" then '\t'
    else FirstByte(delim[0])
  }
}
