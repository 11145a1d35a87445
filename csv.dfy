/**
 * `csv_to_dicts` and its cell normalisation `parse_cell`: the first record of a
 * delimited text is the header, every later record becomes one dictionary from
 * header to normalised cell. Records are lines split on the delimiter; the
 * quoting rules of Python's `csv` module are not part of this model.
 */
module CsvRecords {
  import opened Effects

  /** One parsed record: header name to cell (`JNull`, `JNum` or `JStr`). */
  type Row = map<string, Json>

  // ---------------------------------------------------------------------------
  // Splitting into lines and fields
  // ---------------------------------------------------------------------------

  function Split(s: string, sep: char): (parts: seq<string>)
    ensures |parts| >= 1
    decreases |s|
  {
    if s == [] then [""]
    else
      var rest := Split(s[1..], sep);
      if s[0] == sep then [""] + rest
      else [[s[0]] + rest[0]] + rest[1..]
  }

  function Join(parts: seq<string>, sep: char): string
    decreases |parts|
  {
    if parts == [] then ""
    else if |parts| == 1 then parts[0]
    else parts[0] + [sep] + Join(parts[1..], sep)
  }

  /** Joining the pieces back with the separator gives the text again. */
  lemma {:induction false} SplitJoin(s: string, sep: char)
    ensures Join(Split(s, sep), sep) == s
    decreases |s|
  {
    if s != [] {
      var rest := Split(s[1..], sep);
      SplitJoin(s[1..], sep);
      if s[0] == sep {
        assert Split(s, sep) == [""] + rest;
        assert ([""] + rest)[1..] == rest;
      } else {
        var parts := Split(s, sep);
        assert parts == [[s[0]] + rest[0]] + rest[1..];
        if |rest| == 1 {
          assert Join(rest, sep) == rest[0];
        } else {
          assert parts[1..] == rest[1..];
          assert Join(rest, sep) == rest[0] + [sep] + Join(rest[1..], sep);
        }
      }
    }
  }

  lemma {:induction false} SplitPrefix(a: string, t: string, sep: char)
    requires sep !in a
    ensures Split(a + t, sep) == [a + Split(t, sep)[0]] + Split(t, sep)[1..]
    decreases |a|
  {
    if a == [] {
      assert a + t == t;
      var p := Split(t, sep);
      assert a + p[0] == p[0];
      assert [p[0]] + p[1..] == p;
    } else {
      assert (a + t)[1..] == a[1..] + t;
      assert sep !in a[1..] by { assert forall i :: 0 <= i < |a[1..]| ==> a[1..][i] == a[i + 1]; }
      SplitPrefix(a[1..], t, sep);
      assert [a[0]] + (a[1..] + Split(t, sep)[0]) == a + Split(t, sep)[0];
    }
  }

  /** Splitting a join of separator-free pieces gives the pieces back. */
  lemma {:induction false} JoinSplit(parts: seq<string>, sep: char)
    requires |parts| >= 1
    requires forall i :: 0 <= i < |parts| ==> sep !in parts[i]
    ensures Split(Join(parts, sep), sep) == parts
    decreases |parts|
  {
    if |parts| == 1 {
      SplitPrefix(parts[0], "", sep);
      assert parts[0] + "" == parts[0];
    } else {
      var tail := Join(parts[1..], sep);
      JoinSplit(parts[1..], sep);
      assert Join(parts, sep) == parts[0] + ([sep] + tail);
      SplitPrefix(parts[0], [sep] + tail, sep);
      assert ([sep] + tail)[1..] == tail;
      assert Split([sep] + tail, sep) == [""] + parts[1..];
      assert parts[0] + "" == parts[0];
    }
  }

  /** Drops one carriage return that ends a line ("\r\n" line ends). */
  function StripCR(line: string): string
  {
    if |line| > 0 && line[|line| - 1] == '\r' then line[..|line| - 1] else line
  }

  /** `StripCR` on every line. */
  function StripAll(parts: seq<string>): (ls: seq<string>)
    ensures |ls| == |parts|
  {
    if parts == [] then [] else StripAll(parts[..|parts| - 1]) + [StripCR(parts[|parts| - 1])]
  }

  /** The lines of a text: a final line terminator does not open an empty line. */
  function Lines(text: string): seq<string>
  {
    var parts := Split(text, '\n');
    StripAll(if parts[|parts| - 1] == "" then parts[..|parts| - 1] else parts)
  }

  /** The cells of one line; an empty line is a record with no cells. */
  function Fields(line: string, delimiter: char): seq<string>
  {
    if line == "" then [] else Split(line, delimiter)
  }

  /** `Fields` on every line. */
  function FieldsAll(ls: seq<string>, delimiter: char): (recs: seq<seq<string>>)
    ensures |recs| == |ls|
  {
    if ls == [] then [] else FieldsAll(ls[..|ls| - 1], delimiter) + [Fields(ls[|ls| - 1], delimiter)]
  }

  /** What `csv.reader(io.StringIO(text), delimiter=delimiter)` yields. */
  function Records(text: string, delimiter: char): (recs: seq<seq<string>>)
    ensures |recs| == |Lines(text)|
  {
    FieldsAll(Lines(text), delimiter)
  }

  lemma {:induction false} StripAllIndex(parts: seq<string>, i: nat)
    requires i < |parts|
    ensures StripAll(parts)[i] == StripCR(parts[i])
  {
    var init := parts[..|parts| - 1];
    if i < |init| {
      StripAllIndex(init, i);
      assert init[i] == parts[i];
    }
  }

  lemma {:induction false} FieldsAllIndex(ls: seq<string>, delimiter: char, i: nat)
    requires i < |ls|
    ensures FieldsAll(ls, delimiter)[i] == Fields(ls[i], delimiter)
  {
    var init := ls[..|ls| - 1];
    if i < |init| {
      FieldsAllIndex(init, delimiter, i);
      assert init[i] == ls[i];
    }
  }

  // ---------------------------------------------------------------------------
  // parse_cell
  // ---------------------------------------------------------------------------

  /** The characters `str.strip()` removes (`str.isspace`). */
  predicate IsSpace(c: char) {
    var n := c as int;
    n == 32 || 9 <= n <= 13 || 28 <= n <= 31 || n == 0x85 || n == 0xA0 || n == 0x1680
    || 0x2000 <= n <= 0x200A || n == 0x2028 || n == 0x2029 || n == 0x202F || n == 0x205F || n == 0x3000
  }

  /** Length of the run of whitespace that starts `s`. */
  function LeadingSpaces(s: string): (n: nat)
    ensures n <= |s|
    decreases |s|
  {
    if s != [] && IsSpace(s[0]) then 1 + LeadingSpaces(s[1..]) else 0
  }

  lemma {:induction false} LeadingSpacesRun(s: string)
    ensures forall k :: 0 <= k < LeadingSpaces(s) ==> IsSpace(s[k])
    ensures LeadingSpaces(s) < |s| ==> !IsSpace(s[LeadingSpaces(s)])
    decreases |s|
  {
    if s != [] && IsSpace(s[0]) {
      LeadingSpacesRun(s[1..]);
    }
  }

  /** Length of the run of whitespace that ends `s`. */
  function TrailingSpaces(s: string): (n: nat)
    ensures n <= |s|
    decreases |s|
  {
    if s != [] && IsSpace(s[|s| - 1]) then 1 + TrailingSpaces(s[..|s| - 1]) else 0
  }

  lemma {:induction false} TrailingSpacesRun(s: string)
    ensures forall k :: |s| - TrailingSpaces(s) <= k < |s| ==> IsSpace(s[k])
    ensures TrailingSpaces(s) < |s| ==> !IsSpace(s[|s| - 1 - TrailingSpaces(s)])
    decreases |s|
  {
    if s != [] && IsSpace(s[|s| - 1]) {
      TrailingSpacesRun(s[..|s| - 1]);
    }
  }

  /** `str.strip()` */
  function Strip(s: string): string
  {
    var t := s[LeadingSpaces(s)..];
    t[..|t| - TrailingSpaces(t)]
  }

  /** `str.replace(",", ".")` */
  function CommasToDots(s: string): (r: string)
    ensures |r| == |s|
  {
    if s == [] then [] else [if s[0] == ',' then '.' else s[0]] + CommasToDots(s[1..])
  }

  lemma {:induction false} CommasToDotsIndex(s: string, i: nat)
    requires i < |s|
    ensures CommasToDots(s)[i] == if s[i] == ',' then '.' else s[i]
  {
    if i > 0 {
      CommasToDotsIndex(s[1..], i - 1);
    }
  }

  predicate IsDigit(c: char) {
    '0' <= c <= '9'
  }

  predicate AllDigits(s: string) {
    forall i :: 0 <= i < |s| ==> IsDigit(s[i])
  }

  /** Length of the run of digits that starts `s`. */
  function LeadingDigits(s: string): (n: nat)
    ensures n <= |s|
    decreases |s|
  {
    if s != [] && IsDigit(s[0]) then 1 + LeadingDigits(s[1..]) else 0
  }

  /** The run is maximal: digits up to `LeadingDigits(s)`, then a non-digit or the end. */
  lemma {:induction false} LeadingDigitsRun(s: string)
    ensures forall k :: 0 <= k < LeadingDigits(s) ==> IsDigit(s[k])
    ensures LeadingDigits(s) < |s| ==> !IsDigit(s[LeadingDigits(s)])
    decreases |s|
  {
    if s != [] && IsDigit(s[0]) {
      LeadingDigitsRun(s[1..]);
    }
  }

  /** The number a string of decimal digits denotes. */
  function DecimalValue(d: string): nat
    requires AllDigits(d)
    decreases |d|
  {
    if d == [] then 0
    else 10 * DecimalValue(d[..|d| - 1]) + (d[|d| - 1] as int - '0' as int)
  }

  /** The value of the digits after a decimal point: `0.frac`. */
  function FracValue(frac: string): real
    requires AllDigits(frac)
    decreases |frac|
  {
    if frac == [] then 0.0
    else ((frac[0] as int - '0' as int) as real + FracValue(frac[1..])) / 10.0
  }

  /** The value of `whole.frac`. */
  function Mantissa(whole: string, frac: string): real
    requires AllDigits(whole) && AllDigits(frac)
  {
    DecimalValue(whole) as real + FracValue(frac)
  }

  /** An optional exponent part `[eE][+-]?digits`; `Some(0)` when absent. */
  function ParseExponent(t: string): Option<int>
  {
    if t == "" then Some(0)
    else if t[0] != 'e' && t[0] != 'E' then None
    else
      var u := t[1..];
      var neg := |u| > 0 && u[0] == '-';
      var d := if |u| > 0 && (u[0] == '+' || u[0] == '-') then u[1..] else u;
      if d != "" && AllDigits(d) then
        var v: int := DecimalValue(d);
        Some(if neg then -v else v)
      else None
  }

  /** `m` times ten to the power `e`. */
  function Scale(m: real, e: int): real
    decreases if e >= 0 then e else -e
  {
    if e == 0 then m
    else if e > 0 then 10.0 * Scale(m, e - 1)
    else Scale(m, e + 1) / 10.0
  }

  /** `digits [. digits] [exponent]` or `. digits [exponent]`, unsigned. */
  function ParseUnsigned(s: string): Option<real>
  {
    var i := LeadingDigits(s);
    var hasDot := i < |s| && s[i] == '.';
    var f := if hasDot then LeadingDigits(s[i + 1..]) else 0;
    var frac := if hasDot then s[i + 1..][..f] else "";
    var fracEnd := if hasDot then i + 1 + f else i;
    assert AllDigits(s[..i]) && AllDigits(frac) by {
      LeadingDigitsRun(s);
      if hasDot { LeadingDigitsRun(s[i + 1..]); }
    }
    if i + f == 0 then None
    else
      var m := Mantissa(s[..i], frac);
      match ParseExponent(s[fracEnd..])
      case None => None
      case Some(e) => Some(Scale(m, e))
  }

  /** Python's `float(s)` on a decimal numeral (exact, without rounding). */
  function ParseFloat(s: string): Option<real>
  {
    var neg := |s| > 0 && s[0] == '-';
    var body := if |s| > 0 && (s[0] == '+' || s[0] == '-') then s[1..] else s;
    match ParseUnsigned(body)
    case None => None
    case Some(m) => Some(if neg then -m else m)
  }

  /** `parse_cell`: blank is `None`, a number once commas are dots is a float, else the text. */
  function ParseCell(cell: string): Json
  {
    var c := Strip(cell);
    if c == "" then JNull
    else
      var d := CommasToDots(c);
      match ParseFloat(d)
      case Some(x) => JNum(x)
      case None => JStr(d)
  }

  // ---------------------------------------------------------------------------
  // csv_to_dicts
  // ---------------------------------------------------------------------------

  function Min(a: nat, b: nat): nat {
    if a <= b then a else b
  }

  /**
   * The cell parser on every cell of a record. The record-level functions and the
   * loops below take the parser as a parameter `parse`; `csv_to_dicts` uses `ParseCell`.
   */
  function ParsedCells(cells: seq<string>, parse: string -> Json): (vs: seq<Json>)
    ensures |vs| == |cells|
  {
    if cells == [] then [] else ParsedCells(cells[..|cells| - 1], parse) + [parse(cells[|cells| - 1])]
  }

  /**
   * The dictionary after the first `n` steps of `for h, c in zip(headers, row)`, where
   * `values` holds the parsed cells.
   */
  function ZipDict(headers: seq<string>, values: seq<Json>, n: nat): Row
    requires n <= |headers| && n <= |values|
  {
    if n == 0 then map[] else ZipDict(headers, values, n - 1)[headers[n - 1] := values[n - 1]]
  }

  /** The dictionary `csv_to_dicts` builds for one record. */
  function RowDict(headers: seq<string>, cells: seq<string>, parse: string -> Json): Row
  {
    ZipDict(headers, ParsedCells(cells, parse), Min(|headers|, |cells|))
  }

  /** The dictionaries of the records after the header, in order. */
  function TableRows(headers: seq<string>, rows: seq<seq<string>>, parse: string -> Json): (t: seq<Row>)
    ensures |t| == |rows|
  {
    if rows == [] then [] else TableRows(headers, rows[..|rows| - 1], parse) + [RowDict(headers, rows[|rows| - 1], parse)]
  }

  lemma TableRowsSnoc(headers: seq<string>, rows: seq<seq<string>>, row: seq<string>, parse: string -> Json)
    ensures TableRows(headers, rows + [row], parse) == TableRows(headers, rows, parse) + [RowDict(headers, row, parse)]
  {
    assert (rows + [row])[..|rows|] == rows;
  }

  /** The dictionaries of the records: none without a header record. */
  function Table(recs: seq<seq<string>>, parse: string -> Json): seq<Row>
  {
    if |recs| == 0 || recs[0] == [] then [] else TableRows(recs[0], recs[1..], parse)
  }

  /** The list `csv_to_dicts(text, delimiter)` returns. */
  function CsvTable(text: string, delimiter: char): seq<Row>
  {
    Table(Records(text, delimiter), ParseCell)
  }

  /** The dictionary of one record: `for h, c in zip(headers, row): row_dict[h] = parse_cell(c)`. */
  method RowToDict(headers: seq<string>, row: seq<string>, parse: string -> Json) returns (rowDict: Row)
    ensures rowDict == RowDict(headers, row, parse)
  {
    rowDict := map[];
    var j := 0;
    while j < |headers| && j < |row|
      invariant j <= |headers| && j <= |row|
      invariant rowDict == ZipDict(headers, ParsedCells(row, parse), j)
    {
      ParsedCellsIndex(row, parse, j);
      rowDict := rowDict[headers[j] := parse(row[j])];
      j := j + 1;
    }
    assert j == Min(|headers|, |row|);
  }

  method CsvToDicts(text: string, delimiter: char) returns (dicts: seq<Row>)
    ensures dicts == CsvTable(text, delimiter)
  {
    var reader := Records(text, delimiter);
    dicts := RecordsToDicts(reader, ParseCell);
  }

  /** The loop of `csv_to_dicts` over the records the reader yields. */
  method RecordsToDicts(reader: seq<seq<string>>, parse: string -> Json) returns (dicts: seq<Row>)
    ensures dicts == Table(reader, parse)
  {
    if |reader| == 0 || reader[0] == [] {
      return [];
    }
    var headers := reader[0];
    dicts := [];
    var r := 1;
    while r < |reader|
      invariant 1 <= r <= |reader|
      invariant dicts == TableRows(headers, reader[1..r], parse)
    {
      var rowDict := RowToDict(headers, reader[r], parse);
      TableRowsSnoc(headers, reader[1..r], reader[r], parse);
      assert reader[1..r] + [reader[r]] == reader[1..r + 1];
      dicts := dicts + [rowDict];
      r := r + 1;
    }
    assert reader[1..r] == reader[1..];
  }

  // ---------------------------------------------------------------------------
  // Properties
  // ---------------------------------------------------------------------------

  /** The keys of a record's dictionary are the first min(#headers, #cells) headers. */
  lemma {:induction false} ZipDictKeys(headers: seq<string>, values: seq<Json>, n: nat)
    requires n <= |headers| && n <= |values|
    ensures ZipDict(headers, values, n).Keys == set j | 0 <= j < n :: headers[j]
  {
    if n > 0 {
      ZipDictKeys(headers, values, n - 1);
      var prev := set j | 0 <= j < n - 1 :: headers[j];
      var all := set j | 0 <= j < n :: headers[j];
      assert all == prev + {headers[n - 1]} by {
        forall h | h in all ensures h in prev + {headers[n - 1]} {
          var j :| 0 <= j < n && headers[j] == h;
          if j < n - 1 { assert h in prev; }
        }
      }
    }
  }

  /** A header that does not occur again later in the zip maps to its own value. */
  lemma {:induction false} ZipDictValue(headers: seq<string>, values: seq<Json>, n: nat, j: nat)
    requires n <= |headers| && n <= |values| && j < n
    requires forall i :: j < i < n ==> headers[i] != headers[j]
    ensures headers[j] in ZipDict(headers, values, n)
    ensures ZipDict(headers, values, n)[headers[j]] == values[j]
  {
    if j < n - 1 {
      ZipDictValue(headers, values, n - 1, j);
    }
  }

  lemma {:induction false} ParsedCellsIndex(cells: seq<string>, parse: string -> Json, j: nat)
    requires j < |cells|
    ensures ParsedCells(cells, parse)[j] == parse(cells[j])
  {
    var init := cells[..|cells| - 1];
    if j < |init| {
      ParsedCellsIndex(init, parse, j);
      assert init[j] == cells[j];
    }
  }

  /** Without a header record (an empty text, or an empty first line) the table is empty. */
  lemma CsvNoHeader(text: string, delimiter: char)
    requires Lines(text) == [] || Lines(text)[0] == ""
    ensures CsvTable(text, delimiter) == []
  {
    if Lines(text) != [] {
      FieldsAllIndex(Lines(text), delimiter, 0);
    }
  }

  /** The table holds one dictionary per record, each built from that record alone. */
  lemma {:induction false} TableRowsIndex(headers: seq<string>, rows: seq<seq<string>>, parse: string -> Json, i: nat)
    requires i < |rows|
    ensures TableRows(headers, rows, parse)[i] == RowDict(headers, rows[i], parse)
  {
    var init := rows[..|rows| - 1];
    if i < |init| {
      TableRowsIndex(headers, init, parse, i);
      assert init[i] == rows[i];
    }
  }

  lemma CsvRowIsRowDict(text: string, delimiter: char, i: nat)
    requires var recs := Records(text, delimiter); |recs| > 0 && recs[0] != [] && i < |recs| - 1
    ensures var recs := Records(text, delimiter);
      |CsvTable(text, delimiter)| == |recs| - 1 && CsvTable(text, delimiter)[i] == RowDict(recs[0], recs[i + 1], ParseCell)
  {
    var recs := Records(text, delimiter);
    TableRowsIndex(recs[0], recs[1..], ParseCell, i);
  }

  /**
   * Shape of the table under a header: one dictionary per line after the header,
   * whose keys are exactly the headers paired with a cell by `zip`.
   */
  lemma CsvShape(text: string, delimiter: char)
    requires Lines(text) != [] && Lines(text)[0] != ""
    ensures |CsvTable(text, delimiter)| == |Lines(text)| - 1
    ensures var recs := Records(text, delimiter);
      forall i :: 0 <= i < |recs| - 1 ==>
        CsvTable(text, delimiter)[i].Keys == set j | 0 <= j < Min(|recs[0]|, |recs[i + 1]|) :: recs[0][j]
  {
    var recs := Records(text, delimiter);
    FieldsAllIndex(Lines(text), delimiter, 0);
    forall i | 0 <= i < |recs| - 1
      ensures CsvTable(text, delimiter)[i].Keys == set j | 0 <= j < Min(|recs[0]|, |recs[i + 1]|) :: recs[0][j]
    {
      CsvRowIsRowDict(text, delimiter, i);
      ZipDictKeys(recs[0], ParsedCells(recs[i + 1], ParseCell), Min(|recs[0]|, |recs[i + 1]|));
    }
  }

  /** Under a header, a header name that does not repeat later in the zip holds its own cell, normalised. */
  lemma CsvCell(text: string, delimiter: char, i: nat, j: nat)
    requires var recs := Records(text, delimiter);
      && |recs| > 0 && recs[0] != [] && i < |recs| - 1 && j < Min(|recs[0]|, |recs[i + 1]|)
      && forall h :: j < h < Min(|recs[0]|, |recs[i + 1]|) ==> recs[0][h] != recs[0][j]
    ensures var recs := Records(text, delimiter);
      recs[0][j] in CsvTable(text, delimiter)[i] && CsvTable(text, delimiter)[i][recs[0][j]] == ParseCell(recs[i + 1][j])
  {
    var recs := Records(text, delimiter);
    CsvRowIsRowDict(text, delimiter, i);
    ZipDictValue(recs[0], ParsedCells(recs[i + 1], ParseCell), Min(|recs[0]|, |recs[i + 1]|), j);
    ParsedCellsIndex(recs[i + 1], ParseCell, j);
  }

  lemma StripEmpty(s: string)
    ensures Strip(s) == "" <==> forall k :: 0 <= k < |s| ==> IsSpace(s[k])
  {
    var n := LeadingSpaces(s);
    var t := s[n..];
    LeadingSpacesRun(s);
    TrailingSpacesRun(t);
    if n < |s| {
      assert !IsSpace(t[0]);
      assert TrailingSpaces(t) < |t|;
    }
  }

  /** A cell becomes `None` exactly when it is blank (empty or whitespace only). */
  lemma ParseCellBlank(cell: string)
    ensures ParseCell(cell) == JNull <==> forall k :: 0 <= k < |cell| ==> IsSpace(cell[k])
    ensures ParseCell(cell) != JNull ==> ParseCell(cell).JNum? || ParseCell(cell).JStr?
  {
    StripEmpty(cell);
  }

  lemma {:induction false} CommasToDotsAppend(a: string, b: string)
    ensures CommasToDots(a + b) == CommasToDots(a) + CommasToDots(b)
  {
    if a == [] {
      assert a + b == b;
    } else {
      assert (a + b)[0] == a[0] && (a + b)[1..] == a[1..] + b;
      CommasToDotsAppend(a[1..], b);
    }
  }

  lemma CommasToDotsSlices(s: string, n: nat)
    requires n <= |s|
    ensures CommasToDots(s)[..n] == CommasToDots(s[..n])
    ensures CommasToDots(s)[n..] == CommasToDots(s[n..])
  {
    assert s == s[..n] + s[n..];
    CommasToDotsAppend(s[..n], s[n..]);
  }

  /** Replacing commas twice is replacing them once. */
  lemma {:induction false} CommasToDotsTwice(s: string)
    ensures CommasToDots(CommasToDots(s)) == CommasToDots(s)
  {
    if s != [] {
      CommasToDotsTwice(s[1..]);
    }
  }

  lemma {:induction false} LeadingSpacesCommas(s: string)
    ensures LeadingSpaces(CommasToDots(s)) == LeadingSpaces(s)
    decreases |s|
  {
    if s != [] {
      LeadingSpacesCommas(s[1..]);
    }
  }

  lemma {:induction false} TrailingSpacesCommas(s: string)
    ensures TrailingSpaces(CommasToDots(s)) == TrailingSpaces(s)
    decreases |s|
  {
    if s != [] {
      CommasToDotsSlices(s, |s| - 1);
      CommasToDotsIndex(s, |s| - 1);
      TrailingSpacesCommas(s[..|s| - 1]);
    }
  }

  /** Stripping commutes with replacing commas (neither comma nor dot is whitespace). */
  lemma StripCommas(cell: string)
    ensures Strip(CommasToDots(cell)) == CommasToDots(Strip(cell))
  {
    LeadingSpacesCommas(cell);
    var n := LeadingSpaces(cell);
    var t := cell[n..];
    CommasToDotsSlices(cell, n);
    TrailingSpacesCommas(t);
    CommasToDotsSlices(t, |t| - TrailingSpaces(t));
  }

  /** A decimal comma and a decimal point are the same to `parse_cell`. */
  lemma ParseCellCommaIsDot(cell: string)
    ensures ParseCell(cell) == ParseCell(CommasToDots(cell))
  {
    StripCommas(cell);
    CommasToDotsTwice(Strip(cell));
    ParseCellOfNormalised(cell, CommasToDots(cell));
  }

  /** `parse_cell` depends only on the stripped text with its commas made dots. */
  lemma ParseCellOfNormalised(a: string, b: string)
    requires CommasToDots(Strip(a)) == CommasToDots(Strip(b))
    requires |Strip(a)| == |Strip(b)|
    ensures ParseCell(a) == ParseCell(b)
  {
  }

  lemma {:induction false} LeadingDigitsOf(a: string, rest: string)
    requires AllDigits(a)
    requires rest == [] || !IsDigit(rest[0])
    ensures LeadingDigits(a + rest) == |a|
    decreases |a|
  {
    if a == [] {
      assert a + rest == rest;
    } else {
      assert (a + rest)[0] == a[0];
      assert (a + rest)[1..] == a[1..] + rest;
      LeadingDigitsOf(a[1..], rest);
    }
  }

  /** `whole.frac` (with at least one digit) reads as the exact decimal number. */
  lemma ParseFloatDecimal(whole: string, frac: string)
    requires AllDigits(whole) && AllDigits(frac) && |whole| + |frac| > 0
    ensures ParseFloat(whole + "." + frac) == Some(Mantissa(whole, frac))
  {
    var s := whole + "." + frac;
    LeadingDigitsOf(whole, "." + frac);
    assert s == whole + ("." + frac);
    assert s[|whole| + 1..] == frac;
    LeadingDigitsOf(frac, "");
    assert frac + "" == frac;
    assert s[..|whole|] == whole;
    assert s[|whole| + 1..][..|frac|] == frac;
    assert s[|whole| + 1 + |frac|..] == "";
    assert s[0] == if |whole| > 0 then whole[0] else '.';
  }

  /** A string of digits reads as the integer it denotes. */
  lemma ParseFloatInteger(whole: string)
    requires AllDigits(whole) && whole != ""
    ensures ParseFloat(whole) == Some(DecimalValue(whole) as real)
  {
    LeadingDigitsOf(whole, "");
    assert whole + "" == whole;
    assert whole[..|whole|] == whole;
    assert whole[|whole|..] == "";
    assert !(whole[0] == '+' || whole[0] == '-') by { assert IsDigit(whole[0]); }
    assert Mantissa(whole, whole[|whole| + 0..][..0]) == DecimalValue(whole) as real by {
      assert DecimalValue([]) == 0;
    }
  }

  lemma {:induction false} CommasToDotsDigits(a: string)
    requires AllDigits(a)
    ensures CommasToDots(a) == a
  {
    if a != [] {
      assert IsDigit(a[0]);
      CommasToDotsDigits(a[1..]);
    }
  }

  /** `whole,frac` becomes the number whole.frac: the decimal comma of the files. */
  lemma ParseCellDecimalComma(whole: string, frac: string)
    requires AllDigits(whole) && AllDigits(frac) && whole != ""
    ensures ParseCell(whole + "," + frac) == JNum(Mantissa(whole, frac))
  {
    var cell := whole + "," + frac;
    assert LeadingSpaces(cell) == 0 by { assert cell[0] == whole[0]; assert IsDigit(whole[0]); }
    if frac == [] {
      assert cell[|cell| - 1] == ',';
    } else {
      assert cell[|cell| - 1] == frac[|frac| - 1];
      assert IsDigit(frac[|frac| - 1]);
    }
    assert TrailingSpaces(cell) == 0;
    assert cell[0..] == cell;
    assert Strip(cell) == cell;
    assert CommasToDots(cell) == whole + "." + frac by {
      CommasToDotsDigits(whole);
      CommasToDotsDigits(frac);
      CommasToDotsAppend(whole + ",", frac);
      CommasToDotsAppend(whole, ",");
      assert CommasToDots(",") == ".";
    }
    ParseFloatDecimal(whole, frac);
  }

  lemma MantissaExample()
    ensures AllDigits("12") && AllDigits("5") && Mantissa("12", "5") == 12.5
  {
    assert DecimalValue("1") == 1 by { assert "1"[..0] == ""; }
    assert DecimalValue("12") == 12 by { assert "12"[..1] == "1"; }
    assert FracValue("5") == 0.5 by { assert "5"[1..] == ""; }
  }

  /** "12,5" is the number 12.5; a blank cell is `None`. */
  lemma ParseCellExamples()
    ensures ParseCell("12,5") == JNum(12.5)
    ensures ParseCell(" \t") == JNull
  {
    MantissaExample();
    assert "12" + "," + "5" == "12,5";
    ParseCellDecimalComma("12", "5");
    ParseCellBlank(" \t");
  }

  /**
   * A cell becomes a string exactly when it is not blank and its stripped, comma-to-dot
   * text is not a number; that string is then the text itself: not empty, with no
   * whitespace at either end and no comma left.
   */
  lemma ParseCellText(cell: string)
    ensures ParseCell(cell).JStr? <==>
      (exists k :: 0 <= k < |cell| && !IsSpace(cell[k])) && ParseFloat(CommasToDots(Strip(cell))).None?
    ensures ParseCell(cell).JStr? ==> var s := ParseCell(cell).s;
      && s == CommasToDots(Strip(cell)) && |s| == |Strip(cell)| > 0
      && !IsSpace(s[0]) && !IsSpace(s[|s| - 1])
      && (forall k :: 0 <= k < |s| ==> s[k] != ',')
  {
    StripEmpty(cell);
    var t := Strip(cell);
    if t != "" {
      var n := LeadingSpaces(cell);
      var u := cell[n..];
      LeadingSpacesRun(cell);
      TrailingSpacesRun(u);
      assert t[0] == cell[n];
      assert t[|t| - 1] == u[|u| - 1 - TrailingSpaces(u)];
      var d := CommasToDots(t);
      CommasToDotsIndex(t, 0);
      CommasToDotsIndex(t, |t| - 1);
      forall k | 0 <= k < |d| ensures d[k] != ',' {
        CommasToDotsIndex(t, k);
      }
    }
  }

  /** Text that is not a number is kept stripped and with its commas made dots, not verbatim. */
  lemma ParseCellKeepsNormalisedText()
    ensures ParseCell(" a,b ") == JStr("a.b")
  {
    var s := " a,b ";
    assert LeadingSpaces(s) == 1 by {
      assert LeadingSpaces(s[1..]) == 0 by { assert !IsSpace(s[1]); }
    }
    var t := s[1..];
    assert t == "a,b ";
    assert TrailingSpaces(t) == 1 by {
      assert t[..|t| - 1] == "a,b";
      assert TrailingSpaces("a,b") == 0 by { assert !IsSpace('b'); }
    }
    assert Strip(s) == "a,b";
    assert CommasToDots("a,b") == "a.b";
    assert LeadingDigits("a.b") == 0;
    assert ParseUnsigned("a.b") == None by {
      assert LeadingDigits("a.b"[1..]) == 0 by { assert !IsDigit("a.b"[1]); }
    }
  }
}
