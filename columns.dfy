/** `find_ONS_cols` and `find_ONS_cols_and_unique_vals`: the column names of a dataset's CSV
    download, and for every column either nothing or its distinct values. The detail
    request, its JSON decoding, the CSV download and `pd.read_csv` are inputs: the decoded
    `downloads` field and the parsed table are given as values. */
module Columns {
  import opened Outcomes
  import opened PyText

  /** `r.status_code == 200`. */
  const HttpOk := 200

  /** One cell of a parsed table: a Python `str`, any other value (identified by its printed
      form), or the NaN that pandas puts in an empty field. */
  datatype Cell = Str(text: string) | Other(image: string) | Missing

  /** One column of the table, its cells in row order. */
  datatype Column = Column(name: string, cells: seq<Cell>)

  /** The `downloads` field of a dataset's detail JSON, as far as the two functions look at
      it: missing, present but falsy (`None`, `{}`, ...), a mapping without `csv`, a `csv`
      entry without `href`, or the CSV link. */
  datatype DownloadsField = Absent | Falsy | NoCsv | CsvWithoutHref | CsvHref(href: string)

  /** The body of the detail response: not JSON at all, or a JSON object. */
  datatype DetailBody = NotJson | Json(downloads: DownloadsField)

  datatype DetailResponse = DetailResponse(status: int, body: DetailBody)

  /** What `pd.read_csv` makes of the downloaded text: an exception, or a table. */
  datatype CsvParse = CsvUnparseable | Parsed(table: seq<Column>)

  /** `pandas.read_csv` gives every column its own name (it renames repeated headers). */
  predicate DistinctNames(table: seq<Column>) {
    forall i, j :: 0 <= i < j < |table| ==> table[i].name != table[j].name
  }

  /** The column labels, in table order (`temp_df.columns.to_list()`). */
  function Names(table: seq<Column>): (names: seq<string>)
    ensures |names| == |table|
    ensures forall i :: 0 <= i < |table| ==> names[i] == table[i].name
  {
    seq(|table|, i requires 0 <= i < |table| => table[i].name)
  }

  // ---------------------------------------------------------------- the numeric test

  /** Line 203: `s.replace('.', '', 1).isdigit()`. */
  predicate LooksNumeric(s: string) {
    IsDigitString(RemoveFirst(s, '.'))
  }

  /** The position of the first `c` in `s`. */
  function IndexOf(s: string, c: char): (r: nat)
    requires c in s
    ensures r < |s| && s[r] == c && c !in s[..r]
    decreases |s|
  {
    if s[0] == c then 0
    else
      assert c in s[1..] by {
        var k :| 0 <= k < |s| && s[k] == c;
        assert s[1..][k - 1] == c;
      }
      var r := 1 + IndexOf(s[1..], c);
      assert s[..r] == [s[0]] + s[1..][..r - 1];
      r
  }

  lemma AllDigitsConcat(a: string, b: string)
    ensures AllDigits(a + b) <==> AllDigits(a) && AllDigits(b)
  {
    if AllDigits(a + b) {
      assert forall i :: 0 <= i < |a| ==> a[i] == (a + b)[i];
      assert forall i :: 0 <= i < |b| ==> b[i] == (a + b)[|a| + i];
    }
  }

  /** The numeric test accepts exactly the non-empty digit strings and the strings made of
      digits around a single `.` that are at least two characters long ("5.", ".5", "3.5"). */
  lemma LooksNumericExactly(s: string)
    ensures LooksNumeric(s) <==>
      IsDigitString(s) ||
      exists i :: 0 <= i < |s| && s[i] == '.' && |s| >= 2 && AllDigits(s[..i]) && AllDigits(s[i + 1..])
  {
    if '.' in s {
      var i := IndexOf(s, '.');
      RemoveFirstAt(s, '.', i);
      AllDigitsConcat(s[..i], s[i + 1..]);
      assert !IsDigitString(s) by {
        assert !IsAsciiDigit(s[i]);
      }
    } else {
      RemoveFirstAbsent(s, '.');
    }
  }

  /** The examples of the rule: "12" and "3.5" are numeric, "1.2.3", "" and "-4" are not. */
  lemma NumericExamples()
    ensures LooksNumeric("12") && LooksNumeric("3.5")
    ensures !LooksNumeric("1.2.3") && !LooksNumeric("") && !LooksNumeric("-4")
  {
    assert RemoveFirst("12", '.') == "12";
    assert RemoveFirst("3.5", '.') == "35";
    assert RemoveFirst("1.2.3", '.') == "12.3";
    assert !IsAsciiDigit("12.3"[2]);
    assert RemoveFirst("-4", '.') == "-4";
    assert !IsAsciiDigit("-4"[0]);
  }

  // ---------------------------------------------------------------- distinct values

  predicate NoDuplicates<T(==)>(xs: seq<T>) {
    forall i, j :: 0 <= i < j < |xs| ==> xs[i] != xs[j]
  }

  /** `list(column.unique())`: every value of `xs` once, in order of first appearance. */
  function Distinct<T(==)>(xs: seq<T>): (r: seq<T>)
    ensures forall i :: 0 <= i < |r| ==> r[i] in xs
    ensures forall i :: 0 <= i < |xs| ==> xs[i] in r
    ensures NoDuplicates(r)
    ensures |r| <= |xs|
    decreases |xs|
  {
    if xs == [] then []
    else
      var front := xs[..|xs| - 1];
      var last := xs[|xs| - 1];
      assert xs == front + [last];
      var d := Distinct(front);
      if last in d then d else d + [last]
  }

  /** Values seen first stay first: the distinct values of a prefix start the distinct
      values of the whole. */
  lemma {:induction false} DistinctKeepsOrder<T>(xs: seq<T>, ys: seq<T>)
    ensures Distinct(xs) <= Distinct(xs + ys)
    decreases |ys|
  {
    if ys != [] {
      var front := ys[..|ys| - 1];
      DistinctKeepsOrder(xs, front);
      assert (xs + ys)[..|xs + ys| - 1] == xs + front;
    } else {
      assert xs + ys == xs;
    }
  }

  /** A value already seen adds nothing. */
  lemma DistinctIgnoresRepeats<T>(xs: seq<T>, x: T)
    requires x in xs
    ensures Distinct(xs + [x]) == Distinct(xs)
  {
    assert (xs + [x])[..|xs + [x]| - 1] == xs;
  }

  // ---------------------------------------------------------------- one column

  /** Lines 200-204: the entry of `col_data` for one column with at least one row: its
      distinct values when its first cell is a string that does not look numeric, and
      `None` otherwise. */
  function Summary(col: Column): Option<seq<Cell>>
    requires col.cells != []
  {
    var first := col.cells[0];
    if first.Str? && !LooksNumeric(first.text) then Some(Distinct(col.cells)) else None
  }

  /** The rule stated without the numeric test: a column is summarised exactly when its first
      cell is a string that is neither a digit string nor digits around one `.`. */
  lemma SummaryRule(col: Column)
    requires col.cells != []
    ensures Summary(col).Some? <==>
      col.cells[0].Str? &&
      var s := col.cells[0].text;
      !IsDigitString(s) &&
      forall i :: 0 <= i < |s| && s[i] == '.' && |s| >= 2 ==> !(AllDigits(s[..i]) && AllDigits(s[i + 1..]))
    ensures Summary(col).Some? ==> Summary(col).value == Distinct(col.cells)
  {
    if col.cells[0].Str? {
      LooksNumericExactly(col.cells[0].text);
    }
  }

  /** A column of numbers written as strings gets no summary. */
  lemma NumericColumnExample()
    ensures Summary(Column("value", [Str("12"), Str("3.5"), Str("7")])) == None
  {
    NumericExamples();
  }

  /** A column of words gets its distinct words, each once. */
  lemma CategoricalColumnExample()
    ensures Summary(Column("colour", [Str("red"), Str("blue"), Str("red")])) ==
      Some([Str("red"), Str("blue")])
  {
    assert RemoveFirst("red", '.') == "red";
    assert !IsAsciiDigit("red"[0]);
    var cells := [Str("red"), Str("blue"), Str("red")];
    assert cells[..2][..1] == [Str("red")];
    assert Distinct(cells[..2]) == [Str("red"), Str("blue")];
  }

  // ---------------------------------------------------------------- the whole table

  predicate HasEmptyColumn(table: seq<Column>) {
    exists i :: 0 <= i < |table| && table[i].cells == []
  }

  /** `m` is the `col_data` of `table`: one key per column, holding that column's summary. */
  ghost predicate Summarises(table: seq<Column>, m: map<string, Option<seq<Cell>>>)
    requires !HasEmptyColumn(table)
  {
    && (forall n :: n in m <==> n in Names(table))
    && (forall i :: 0 <= i < |table| ==> table[i].name in m && m[table[i].name] == Summary(table[i]))
  }

  /** A table has one `col_data`: summarising the same table twice gives the same mapping. */
  lemma SummariesAreUnique(table: seq<Column>, m1: map<string, Option<seq<Cell>>>, m2: map<string, Option<seq<Cell>>>)
    requires !HasEmptyColumn(table)
    requires Summarises(table, m1) && Summarises(table, m2)
    ensures m1 == m2
  {
    forall n | n in m1
      ensures n in m2 && m1[n] == m2[n]
    {
      var names := Names(table);
      var i :| 0 <= i < |names| && names[i] == n;
      assert table[i].name == n;
    }
  }

  /** Lines 197-204: `col_data`, filled one column at a time. The `[0]` lookup raises
      `KeyError` on a column without rows. */
  method SummariseColumns(table: seq<Column>) returns (out: Outcome<map<string, Option<seq<Cell>>>>)
    requires DistinctNames(table)
    ensures out.Raised? <==> HasEmptyColumn(table)
    ensures out.Raised? ==> out.error == KeyError
    ensures !out.NeedsMoreInput?
    ensures out.Returned? ==> !HasEmptyColumn(table) && Summarises(table, out.value)
  {
    var colData: map<string, Option<seq<Cell>>> := map[];
    var i := 0;
    while i < |table|
      invariant 0 <= i <= |table|
      invariant forall j :: 0 <= j < i ==> table[j].cells != []
      invariant forall n :: n in colData <==> exists j :: 0 <= j < i && table[j].name == n
      invariant forall j :: 0 <= j < i ==> table[j].name in colData && colData[table[j].name] == Summary(table[j])
    {
      var col := table[i];
      colData := colData[col.name := None];
      if |col.cells| == 0 {
        return Raised(KeyError);
      }
      var first := col.cells[0];
      if first.Str? && !LooksNumeric(first.text) {
        colData := colData[col.name := Some(Distinct(col.cells))];
      }
      i := i + 1;
    }
    var names := Names(table);
    assert forall n :: n in names <==> exists j :: 0 <= j < |table| && table[j].name == n by {
      forall n | n in names
        ensures exists j :: 0 <= j < |table| && table[j].name == n
      {
        var j :| 0 <= j < |names| && names[j] == n;
        assert table[j].name == n;
      }
    }
    out := Returned(colData);
  }

  /** Lines 174-208: `find_ONS_cols_and_unique_vals`. The detail body is indexed with `[...]`
      (a missing key raises `KeyError`); a body that is not JSON or a falsy `downloads`
      gives the empty mapping. */
  method FindColsAndUniqueVals(body: DetailBody, csv: CsvParse) returns (out: Outcome<map<string, Option<seq<Cell>>>>)
    requires csv.Parsed? ==> DistinctNames(csv.table)
    ensures !out.NeedsMoreInput?
    ensures out == Returned(map[]) <==>
      body.NotJson? || body.downloads.Falsy? ||
      (body.downloads.CsvHref? && csv.Parsed? && csv.table == [])
    ensures body.Json? && (body.downloads.Absent? || body.downloads.NoCsv? || body.downloads.CsvWithoutHref?) ==>
      out == Raised(KeyError)
    ensures body.Json? && body.downloads.CsvHref? && csv.CsvUnparseable? ==> out == Raised(CsvParseError)
    ensures body.Json? && body.downloads.CsvHref? && csv.Parsed? ==>
      (out.Raised? <==> HasEmptyColumn(csv.table)) &&
      (out.Raised? ==> out.error == KeyError) &&
      (out.Returned? ==> !HasEmptyColumn(csv.table) && Summarises(csv.table, out.value))
  {
    match body
    case NotJson =>
      out := Returned(map[]);
    case Json(downloads) =>
      match downloads
      case Absent =>
        out := Raised(KeyError);
      case NoCsv =>
        out := Raised(KeyError);
      case CsvWithoutHref =>
        out := Raised(KeyError);
      case Falsy =>
        out := Returned(map[]);
      case CsvHref(_) =>
        match csv
        case CsvUnparseable =>
          out := Raised(CsvParseError);
        case Parsed(table) =>
          out := SummariseColumns(table);
          if out.Returned? {
            if table == [] {
              assert forall n :: n !in out.value;
            } else {
              assert table[0].name in out.value;
            }
          }
  }

  // ---------------------------------------------------------------- find_ONS_cols

  /** Lines 95-116: `find_ONS_cols`. Here `downloads` is read with `.get`: a missing or falsy
      `downloads` gives NaN, a missing `csv` makes the next `.get` run on `None`, and a
      missing `href` sends a request to `None`. */
  function FindCols(resp: DetailResponse, csv: CsvParse): (r: Outcome<OrNaN<seq<string>>>)
    ensures !r.NeedsMoreInput?
    ensures r == Returned(NaN) <==>
      resp.status != HttpOk || (resp.body.Json? && (resp.body.downloads.Absent? || resp.body.downloads.Falsy?))
    ensures r.Raised? <==>
      resp.status == HttpOk &&
      (resp.body.NotJson? || resp.body.downloads.NoCsv? || resp.body.downloads.CsvWithoutHref? ||
       (resp.body.downloads.CsvHref? && csv.CsvUnparseable?))
    ensures resp.status == HttpOk && resp.body.Json? && resp.body.downloads.CsvHref? && csv.Parsed? ==>
      r == Returned(Val(Names(csv.table)))
    ensures r.Returned? && r.value.Val? ==>
      resp.body.Json? && csv.Parsed? && |r.value.value| == |csv.table| &&
      forall i :: 0 <= i < |csv.table| ==> r.value.value[i] == csv.table[i].name
  {
    if resp.status != HttpOk then Returned(NaN)
    else match resp.body
      case NotJson => Raised(JsonDecodeError)
      case Json(downloads) =>
        match downloads
        case Absent => Returned(NaN)
        case Falsy => Returned(NaN)
        case NoCsv => Raised(AttributeError)
        case CsvWithoutHref => Raised(MissingSchema)
        case CsvHref(_) =>
          match csv
          case CsvUnparseable => Raised(CsvParseError)
          case Parsed(table) => Returned(Val(Names(table)))
  }

  /** The downloaded table is looked at only after a 200 status and a CSV link; before
      that the answer is the same whatever the download would have held. */
  lemma FindColsReadsCsvLast(resp: DetailResponse, csv: CsvParse, other: CsvParse)
    requires !(resp.status == HttpOk && resp.body.Json? && resp.body.downloads.CsvHref?)
    ensures FindCols(resp, csv) == FindCols(resp, other)
  {
  }

  /** The two functions agree on a table they both read: the keys of `col_data` are exactly
      the column names `find_ONS_cols` lists. */
  lemma ColumnsAgree(resp: DetailResponse, table: seq<Column>, m: map<string, Option<seq<Cell>>>)
    requires resp.status == HttpOk && resp.body.Json? && resp.body.downloads.CsvHref?
    requires !HasEmptyColumn(table) && Summarises(table, m)
    ensures FindCols(resp, Parsed(table)) == Returned(Val(Names(table)))
    ensures forall n :: n in m <==> n in FindCols(resp, Parsed(table)).value.value
  {
  }
}
