/**
 The chat frontend's `formatNL2SQLResult`: it turns the response record it
 declares for the `/nl2sql/` endpoint into the text of a chat bubble.

 The record is the frontend's own declaration (optional `question`, `sql`,
 `columns`, `rows`, `error`, `detail`); it is not the shape the backend
 handler builds. An absent or null field is `None`; a row is a map from
 column names to cells, where a missing key is `undefined` and `JsNull` is
 `null`. How JavaScript's `String(v)` renders a cell value is the
 parameter `show`.
 */
module ChatFormat {
  import opened Wrappers
  import opened Text
  import opened Tokens

  /** Rows shown before the output is cut short. */
  const MaxRows: nat := 10
  const ErrorLead: string := "Backend reported an error: "
  const DetailLead: string := "Detail: "
  const SqlLead: string := "Generated SQL:"
  const NoSql: string := "No SQL was returned."
  const NoColumns: string := "(No result columns returned)"
  const NoRows: string := "Query returned 0 rows."
  const CellSep: string := " | "
  // The source file holds the UTF-8 bytes of a horizontal ellipsis decoded
  // once more as Windows-1252, so the bubble shows these three characters.
  const Ellipsis: string := "\U{00E2}\U{20AC}\U{00A6}"

  datatype Cell<V> = JsNull | JsVal(value: V)

  type Row<V> = map<string, Cell<V>>

  datatype NL2SQLResponse<V> = NL2SQLResponse(
    question: Option<string>,
    sql: Option<string>,
    columns: Option<seq<string>>,
    rows: Option<seq<Row<V>>>,
    error: Option<string>,
    detail: Option<string>)

  /** JavaScript truthiness of an optional string: present and non-empty. */
  predicate Truthy(s: Option<string>)
  {
    s.Some? && s.value != ""
  }

  predicate IsDigit(c: char)
  {
    '0' <= c <= '9'
  }

  /** Decimal rendering of a count, as a template literal prints a number. */
  function NatToString(n: nat): (r: string)
    ensures |r| > 0 && (r[0] == '0' ==> n == 0)
    ensures forall i :: 0 <= i < |r| ==> IsDigit(r[i])
  {
    var d := (('0' as int) + n % 10) as char;
    if n < 10 then [d] else NatToString(n / 10) + [d]
  }

  /** The number a string of decimal digits denotes: the inverse of
      `NatToString`. */
  function DigitsValue(s: string): nat
  {
    if |s| == 0 then 0
    else
      var d := (s[|s| - 1] as int) - ('0' as int);
      DigitsValue(s[..|s| - 1]) * 10 + (if 0 <= d then d else 0)
  }

  /** The text of one cell: `null` and `undefined` show as nothing. */
  function CellText<V>(row: Row<V>, c: string, show: V -> string): string
  {
    if c in row && row[c].JsVal? then show(row[c].value) else ""
  }

  /** `cols.map(...)`: one cell per column, in column order. */
  function Cells<V>(columns: seq<string>, row: Row<V>, show: V -> string): (cells: seq<string>)
    ensures |cells| == |columns|
    ensures forall j :: 0 <= j < |columns| ==> cells[j] == CellText(row, columns[j], show)
  {
    if |columns| == 0 then []
    else [CellText(row, columns[0], show)] + Cells(columns[1..], row, show)
  }

  function RowLine<V>(columns: seq<string>, row: Row<V>, show: V -> string): string
  {
    Join(Cells(columns, row, show), CellSep)
  }

  function Min(a: nat, b: nat): nat
  {
    if a <= b then a else b
  }

  /** `rows.map(...)`: one line per row, in row order. */
  function RowLines<V>(columns: seq<string>, rows: seq<Row<V>>, show: V -> string): (lines: seq<string>)
    ensures |lines| == |rows|
    ensures forall i :: 0 <= i < |rows| ==> lines[i] == RowLine(columns, rows[i], show)
  {
    if |rows| == 0 then []
    else [RowLine(columns, rows[0], show)] + RowLines(columns, rows[1..], show)
  }

  /** `rows.slice(0, maxRows).map(...)`: the lines of the table body, for
      the first `MaxRows` rows at most. */
  function BodyLines<V>(columns: seq<string>, rows: seq<Row<V>>, show: V -> string): (lines: seq<string>)
    ensures |lines| == Min(|rows|, MaxRows)
    ensures forall i :: 0 <= i < |lines| ==> lines[i] == RowLine(columns, rows[i], show)
  {
    var shown := rows[..Min(|rows|, MaxRows)];
    assert forall i :: 0 <= i < |shown| ==> shown[i] == rows[i];
    RowLines(columns, shown, show)
  }

  function Title(): string
  {
    "Result (up to " + NatToString(MaxRows) + " rows):"
  }

  function TruncationLine(hidden: nat): string
  {
    Ellipsis + " (" + NatToString(hidden) + " more rows)"
  }

  /** The part naming the statement, before its closing newline. */
  function SqlHead(sql: Option<string>): string
  {
    if Truthy(sql) then SqlLead + "\n" + sql.value else NoSql
  }

  function DetailPart(detail: Option<string>): string
  {
    if Truthy(detail) then "\n" + DetailLead + detail.value else ""
  }

  function SqlInfo(sql: Option<string>): string
  {
    if Truthy(sql) then "\n\n" + SqlLead + "\n" + sql.value else ""
  }

  function Truncation(count: nat): string
  {
    if count > MaxRows then "\n" + TruncationLine(count - MaxRows) else ""
  }

  /** `formatNL2SQLResult(res)`. */
  function FormatResult<V>(res: NL2SQLResponse<V>, show: V -> string): (out: string)
  {
    if Truthy(res.error) then
      ErrorLead + res.error.value + DetailPart(res.detail) + SqlInfo(res.sql)
    else
      var sqlPart := SqlHead(res.sql) + "\n";
      var columns := res.columns.GetOr([]);
      var rows := res.rows.GetOr([]);
      if |columns| == 0 then sqlPart + "\n" + NoColumns
      else if |rows| == 0 then sqlPart + "\n" + NoRows
      else
        var header := Join(columns, CellSep);
        var body := BodyLines(columns, rows, show);
        sqlPart + "\n" + Title() + "\n" + header + "\n" + Join(body, "\n") + Truncation(|rows|)
  }

  // ---------------------------------------------------------------------------
  // Numbers

  lemma {:induction false} DigitsRoundTrip(n: nat)
    ensures DigitsValue(NatToString(n)) == n
    decreases n
  {
    var d := (('0' as int) + n % 10) as char;
    var r := NatToString(n);
    if n >= 10 {
      DigitsRoundTrip(n / 10);
      assert r[..|r| - 1] == NatToString(n / 10);
    }
    assert r[|r| - 1] == d;
  }

  /** Different counts print differently. */
  lemma NatToStringInjective(m: nat, n: nat)
    requires NatToString(m) == NatToString(n)
    ensures m == n
  {
    DigitsRoundTrip(m);
    DigitsRoundTrip(n);
  }

  lemma MaxRowsText()
    ensures NatToString(MaxRows) == "10"
  {
    assert NatToString(1) == "1";
  }

  // ---------------------------------------------------------------------------
  // Lines

  predicate NoNewline(s: string)
  {
    '\n' !in s
  }

  lemma LinesSingle(s: string)
    requires NoNewline(s)
    ensures Lines(s) == [s]
  {
    FirstIndexUnique(s, '\n', |s|);
  }

  lemma DigitsNoNewline(n: nat)
    ensures NoNewline(NatToString(n))
  {
    var r := NatToString(n);
    assert forall i :: 0 <= i < |r| ==> r[i] != '\n';
  }

  /** The lines of `SqlHead`. */
  function SqlLines(sql: Option<string>): seq<string>
  {
    if Truthy(sql) then [SqlLead, sql.value] else [NoSql]
  }

  lemma SqlHeadLines(sql: Option<string>)
    requires sql.Some? ==> NoNewline(sql.value)
    ensures Lines(SqlHead(sql)) == SqlLines(sql)
  {
    Literals();
    if Truthy(sql) {
      LinesCons(SqlLead, sql.value);
      LinesSingle(sql.value);
    } else {
      LinesSingle(NoSql);
    }
  }

  lemma JoinNoNewline(xs: seq<string>, sep: string)
    requires NoNewline(sep) && forall i :: 0 <= i < |xs| ==> NoNewline(xs[i])
    ensures NoNewline(Join(xs, sep))
    decreases |xs|
  {
    if |xs| > 1 {
      JoinNoNewline(xs[1..], sep);
    }
  }

  /** Splitting at the first newline of a text whose first line is `a`. */
  lemma LinesCons(a: string, rest: string)
    requires NoNewline(a)
    ensures Lines(a + "\n" + rest) == [a] + Lines(rest)
  {
    LinesAppend(a, rest);
    LinesSingle(a);
  }

  /** The table body joined by newlines splits back into its lines, followed
      by the truncation line when there is one. */
  lemma BodyTail(body: seq<string>, truncated: string, tail: seq<string>)
    requires |body| > 0 && forall i :: 0 <= i < |body| ==> NoNewline(body[i])
    requires (truncated == "" && tail == []) ||
             (exists t :: truncated == "\n" + t && NoNewline(t) && tail == [t])
    ensures Lines(Join(body, "\n") + truncated) == body + tail
  {
    LinesJoin(body);
    if truncated == "" {
      assert Join(body, "\n") + truncated == Join(body, "\n");
    } else {
      var t :| truncated == "\n" + t && NoNewline(t) && tail == [t];
      assert Join(body, "\n") + truncated == Join(body, "\n") + "\n" + t;
      LinesAppend(Join(body, "\n"), t);
      LinesSingle(t);
    }
  }

  /** Two newlines in a row leave an empty line between. */
  lemma BlankThen(h: string, x: string)
    ensures Lines(h + "\n" + "\n" + x) == Lines(h) + [""] + Lines(x)
  {
    assert h + "\n" + "\n" + x == h + "\n" + ("" + "\n" + x);
    LinesAppend(h, "" + "\n" + x);
    LinesAppend("", x);
    LinesSingle("");
  }

  /** A text that ends with a blank line and then the line `x`. */
  lemma EndingLines(h: string, x: string, hl: seq<string>)
    requires Lines(h) == hl && NoNewline(x)
    ensures Lines(h + "\n" + "\n" + x) == hl + ["", x]
  {
    BlankThen(h, x);
    LinesSingle(x);
  }

  lemma Literals()
    ensures NoNewline(ErrorLead) && NoNewline(DetailLead) && NoNewline(SqlLead)
    ensures NoNewline(NoSql) && NoNewline(CellSep)
  {
  }

  lemma NoColumnsPlain()
    ensures NoNewline(NoColumns)
  {
  }

  lemma NoRowsPlain()
    ensures NoNewline(NoRows)
  {
  }

  lemma TitleNoNewline()
    ensures NoNewline(Title())
  {
    DigitsNoNewline(MaxRows);
  }

  lemma TruncationLines(count: nat)
    ensures count <= MaxRows ==> Truncation(count) == ""
    ensures count > MaxRows ==>
      Truncation(count) == "\n" + TruncationLine(count - MaxRows) && NoNewline(TruncationLine(count - MaxRows))
  {
    if count > MaxRows {
      DigitsNoNewline(count - MaxRows);
    }
  }

  // ---------------------------------------------------------------------------
  // The branches of the formatter

  /** Two lines joined by a newline split back into them. */
  lemma TwoLines(a: string, b: string)
    requires NoNewline(a) && NoNewline(b)
    ensures Lines(a + "\n" + b) == [a, b]
  {
    LinesCons(a, b);
    LinesSingle(b);
  }

  lemma Regroup(a: string, b: string, c: string, d: string)
    ensures a + (b + c + d) == a + b + (c + d)
  {
  }

  lemma DetailLines(e: string, detail: Option<string>)
    requires NoNewline(e)
    requires detail.Some? ==> NoNewline(detail.value)
    ensures Lines(e + DetailPart(detail)) == [e] + (if Truthy(detail) then [DetailLead + detail.value] else [])
  {
    if Truthy(detail) {
      Literals();
      Regroup(e, "\n", DetailLead, detail.value);
      TwoLines(e, DetailLead + detail.value);
    } else {
      assert e + DetailPart(detail) == e;
      LinesSingle(e);
    }
  }

  lemma SqlInfoShape(sql: Option<string>)
    requires Truthy(sql) && NoNewline(sql.value)
    ensures SqlInfo(sql) == "\n" + "\n" + (SqlLead + "\n" + sql.value)
    ensures Lines(SqlLead + "\n" + sql.value) == [SqlLead, sql.value]
  {
    Literals();
    LinesCons(SqlLead, sql.value);
    LinesSingle(sql.value);
  }

  lemma BlankBefore(first: string, fl: seq<string>, t: string, y: string, yl: seq<string>)
    requires Lines(first) == fl && Lines(y) == yl && t == "\n" + "\n" + y
    ensures Lines(first + t) == fl + [""] + yl
  {
    Regroup(first, "\n", "\n", y);
    Assoc(first + "\n", "\n", y);
    BlankThen(first, y);
  }

  lemma AppendSql(first: string, fl: seq<string>, sql: Option<string>)
    requires Lines(first) == fl && Truthy(sql) && NoNewline(sql.value)
    ensures Lines(first + SqlInfo(sql)) == fl + ["", SqlLead, sql.value]
  {
    SqlInfoShape(sql);
    BlankBefore(first, fl, SqlInfo(sql), SqlLead + "\n" + sql.value, [SqlLead, sql.value]);
  }

  lemma ErrorLines(e: string, detail: Option<string>, sql: Option<string>)
    requires NoNewline(e)
    requires detail.Some? ==> NoNewline(detail.value)
    requires sql.Some? ==> NoNewline(sql.value)
    ensures Lines(e + DetailPart(detail) + SqlInfo(sql)) ==
      [e]
      + (if Truthy(detail) then [DetailLead + detail.value] else [])
      + (if Truthy(sql) then ["", SqlLead, sql.value] else [])
  {
    var first := e + DetailPart(detail);
    var fl := [e] + (if Truthy(detail) then [DetailLead + detail.value] else []);
    DetailLines(e, detail);
    if Truthy(sql) {
      AppendSql(first, fl, sql);
    } else {
      assert first + SqlInfo(sql) == first;
    }
  }

  lemma StartsPrefix(a: string, b: string, c: string)
    ensures StartsWith(a + b + c, a)
  {
    assert (a + b + c)[..|a|] == a;
  }

  /** A truthy error opens the output, whatever the other fields hold. */
  lemma ErrorLeads<V>(res: NL2SQLResponse<V>, show: V -> string)
    requires Truthy(res.error)
    ensures StartsWith(FormatResult(res, show), ErrorLead + res.error.value)
  {
    StartsPrefix(ErrorLead + res.error.value, DetailPart(res.detail), SqlInfo(res.sql));
  }

  /** A reported error opens the output, followed by the detail line when
      there is a detail and by a blank line and the statement when there is
      one. */
  lemma ErrorReport<V>(res: NL2SQLResponse<V>, show: V -> string)
    requires Truthy(res.error) && NoNewline(res.error.value)
    requires res.detail.Some? ==> NoNewline(res.detail.value)
    requires res.sql.Some? ==> NoNewline(res.sql.value)
    ensures StartsWith(FormatResult(res, show), ErrorLead + res.error.value)
    ensures Lines(FormatResult(res, show)) ==
      [ErrorLead + res.error.value]
      + (if Truthy(res.detail) then [DetailLead + res.detail.value] else [])
      + (if Truthy(res.sql) then ["", SqlLead, res.sql.value] else [])
  {
    var e := ErrorLead + res.error.value;
    Literals();
    ErrorLeads(res, show);
    ErrorLines(e, res.detail, res.sql);
  }

  /** When an error is reported the columns, rows and question are ignored. */
  lemma ErrorIgnoresTable<V>(res: NL2SQLResponse<V>, show: V -> string, question: Option<string>,
                             columns: Option<seq<string>>, rows: Option<seq<Row<V>>>)
    requires Truthy(res.error)
    ensures FormatResult(res, show) == FormatResult(res.(question := question, columns := columns, rows := rows), show)
  {
  }

  lemma FormatNoColumns<V>(res: NL2SQLResponse<V>, show: V -> string)
    requires !Truthy(res.error) && (res.columns.None? || res.columns.value == [])
    ensures FormatResult(res, show) == SqlHead(res.sql) + "\n" + "\n" + NoColumns
  {
  }

  /** Without columns the output is the statement part and a note saying so. */
  lemma NoColumnsReport<V>(res: NL2SQLResponse<V>, show: V -> string)
    requires !Truthy(res.error) && (res.columns.None? || res.columns.value == [])
    requires res.sql.Some? ==> NoNewline(res.sql.value)
    ensures Lines(FormatResult(res, show)) == SqlLines(res.sql) + ["", NoColumns]
  {
    FormatNoColumns(res, show);
    SqlHeadLines(res.sql);
    NoColumnsPlain();
    EndingLines(SqlHead(res.sql), NoColumns, SqlLines(res.sql));
  }

  lemma FormatNoRows<V>(res: NL2SQLResponse<V>, show: V -> string)
    requires !Truthy(res.error) && res.columns.Some? && res.columns.value != []
    requires res.rows.None? || res.rows.value == []
    ensures FormatResult(res, show) == SqlHead(res.sql) + "\n" + "\n" + NoRows
  {
  }

  /** With columns but no rows the output ends by reporting zero rows. */
  lemma NoRowsReport<V>(res: NL2SQLResponse<V>, show: V -> string)
    requires !Truthy(res.error) && res.columns.Some? && res.columns.value != []
    requires res.rows.None? || res.rows.value == []
    requires res.sql.Some? ==> NoNewline(res.sql.value)
    ensures EndsWith(FormatResult(res, show), "\n" + NoRows)
    ensures Lines(FormatResult(res, show)) == SqlLines(res.sql) + ["", NoRows]
  {
    var out := FormatResult(res, show);
    FormatNoRows(res, show);
    assert out == SqlHead(res.sql) + "\n" + ("\n" + NoRows);
    assert out[|out| - |"\n" + NoRows|..] == "\n" + NoRows;
    SqlHeadLines(res.sql);
    NoRowsPlain();
    EndingLines(SqlHead(res.sql), NoRows, SqlLines(res.sql));
  }

  /** Nothing in the lines of a table is split by a newline of its own when
      the statement, the column names and the shown values have none. */
  predicate PlainTable<V>(res: NL2SQLResponse<V>, show: V -> string)
  {
    && (res.sql.Some? ==> NoNewline(res.sql.value))
    && (res.columns.Some? ==> forall j :: 0 <= j < |res.columns.value| ==> NoNewline(res.columns.value[j]))
    && (res.rows.Some? ==> forall i :: 0 <= i < |res.rows.value| ==> PlainRow(res.rows.value[i], show))
  }

  predicate PlainRow<V>(row: Row<V>, show: V -> string)
  {
    forall c :: c in row && row[c].JsVal? ==> NoNewline(show(row[c].value))
  }

  lemma RowLineNoNewline<V>(columns: seq<string>, row: Row<V>, show: V -> string)
    requires PlainRow(row, show)
    ensures NoNewline(RowLine(columns, row, show))
  {
    var cells := Cells(columns, row, show);
    assert forall j :: 0 <= j < |cells| ==> NoNewline(cells[j]);
    Literals();
    JoinNoNewline(cells, CellSep);
  }

  lemma BodyNoNewline<V>(columns: seq<string>, rows: seq<Row<V>>, show: V -> string)
    requires forall i :: 0 <= i < |rows| ==> PlainRow(rows[i], show)
    ensures forall i :: 0 <= i < Min(|rows|, MaxRows) ==> NoNewline(BodyLines(columns, rows, show)[i])
  {
    var body := BodyLines(columns, rows, show);
    forall i | 0 <= i < |body|
      ensures NoNewline(body[i])
    {
      RowLineNoNewline(columns, rows[i], show);
    }
  }

  lemma FormatTable<V>(res: NL2SQLResponse<V>, show: V -> string)
    requires !Truthy(res.error) && res.columns.Some? && res.columns.value != []
    requires res.rows.Some? && res.rows.value != []
    ensures var columns, rows := res.columns.value, res.rows.value;
      FormatResult(res, show) ==
        SqlHead(res.sql) + "\n" + "\n" + (Title() + "\n" + (Join(columns, CellSep) + "\n" +
          (Join(BodyLines(columns, rows, show), "\n") + Truncation(|rows|))))
  {
    var columns, rows := res.columns.value, res.rows.value;
    var h, t, header := SqlHead(res.sql), Title(), Join(columns, CellSep);
    var body, more := Join(BodyLines(columns, rows, show), "\n"), Truncation(|rows|);
    assert FormatResult(res, show) == h + "\n" + "\n" + t + "\n" + header + "\n" + body + more;
    TableRegroup(h, t, header, body, more);
  }

  lemma TableRegroup(h: string, t: string, header: string, body: string, more: string)
    ensures h + "\n" + "\n" + t + "\n" + header + "\n" + body + more
         == h + "\n" + "\n" + (t + "\n" + (header + "\n" + (body + more)))
  {
  }

  lemma TableLines(h: string, t: string, header: string, body: seq<string>, truncated: string, tail: seq<string>)
    requires NoNewline(t) && NoNewline(header)
    requires |body| > 0 && forall i :: 0 <= i < |body| ==> NoNewline(body[i])
    requires (truncated == "" && tail == []) ||
             (exists x :: truncated == "\n" + x && NoNewline(x) && tail == [x])
    ensures Lines(h + "\n" + "\n" + (t + "\n" + (header + "\n" + (Join(body, "\n") + truncated)))) ==
      Lines(h) + ["", t, header] + body + tail
  {
    BodyTail(body, truncated, tail);
    var rest := Join(body, "\n") + truncated;
    LinesCons(header, rest);
    LinesCons(t, header + "\n" + rest);
    BlankThen(h, t + "\n" + (header + "\n" + rest));
    Regather(Lines(h), "", t, header, body, tail);
  }

  lemma Regather(a: seq<string>, x: string, y: string, z: string, b: seq<string>, c: seq<string>)
    ensures a + [x] + ([y] + ([z] + (b + c))) == a + [x, y, z] + b + c
  {
  }

  /** With columns and rows the output is: the statement part, a blank line,
      the title, the header of column names joined by " | ", one line per
      row for the first ten rows, and, exactly when rows were left out, a
      line counting them. */
  lemma TableReport<V>(res: NL2SQLResponse<V>, show: V -> string)
    requires !Truthy(res.error) && res.columns.Some? && res.columns.value != []
    requires res.rows.Some? && res.rows.value != []
    requires PlainTable(res, show)
    ensures var columns, rows := res.columns.value, res.rows.value;
      Lines(FormatResult(res, show)) ==
        SqlLines(res.sql) + ["", Title(), Join(columns, CellSep)]
        + BodyLines(columns, rows, show)
        + (if |rows| > MaxRows then [TruncationLine(|rows| - MaxRows)] else [])
  {
    var columns, rows := res.columns.value, res.rows.value;
    var body := BodyLines(columns, rows, show);
    BodyNoNewline(columns, rows, show);
    Literals();
    JoinNoNewline(columns, CellSep);
    TitleNoNewline();
    FormatTable(res, show);
    var tail: seq<string> := if |rows| > MaxRows then [TruncationLine(|rows| - MaxRows)] else [];
    TruncationLines(|rows|);
    TableLines(SqlHead(res.sql), Title(), Join(columns, CellSep), body, Truncation(|rows|), tail);
    SqlHeadLines(res.sql);
  }

  // ---------------------------------------------------------------------------
  // Cells and the row cap

  /** Every body line has one cell per column, in column order; a null or
      missing value shows as the empty string. */
  lemma CellsReport<V>(columns: seq<string>, row: Row<V>, show: V -> string)
    ensures RowLine(columns, row, show) == Join(Cells(columns, row, show), CellSep)
    ensures |Cells(columns, row, show)| == |columns|
    ensures forall j :: 0 <= j < |columns| ==>
      (columns[j] !in row || row[columns[j]].JsNull?) ==> Cells(columns, row, show)[j] == ""
    ensures forall j :: 0 <= j < |columns| && columns[j] in row && row[columns[j]].JsVal? ==>
      Cells(columns, row, show)[j] == show(row[columns[j]].value)
  {
  }

  /** Two rows agree on a column when both hold the same value there, or
      when neither holds one: a missing key and `null` count alike. */
  ghost predicate Agree<V>(row: Row<V>, other: Row<V>, c: string)
  {
    if c in row && row[c].JsVal? then c in other && other[c] == row[c]
    else c !in other || other[c].JsNull?
  }

  /** A row line depends only on the values the row holds under the
      columns: keys outside them, and the difference between a missing key
      and `null`, never show. */
  lemma RowLineDepends<V>(columns: seq<string>, row: Row<V>, other: Row<V>, show: V -> string)
    requires forall j :: 0 <= j < |columns| ==> Agree(row, other, columns[j])
    ensures Cells(columns, row, show) == Cells(columns, other, show)
    ensures RowLine(columns, row, show) == RowLine(columns, other, show)
  {
    var a, b := Cells(columns, row, show), Cells(columns, other, show);
    forall j | 0 <= j < |columns|
      ensures a[j] == b[j]
    {
      assert Agree(row, other, columns[j]);
    }
  }

  /** Only the first ten rows are shown: rows past them count but never
      appear. */
  lemma FirstRowsOnly<V>(res: NL2SQLResponse<V>, rows: seq<Row<V>>, show: V -> string)
    requires res.rows.Some? && |rows| == |res.rows.value|
    requires rows[..Min(|rows|, MaxRows)] == res.rows.value[..Min(|rows|, MaxRows)]
    ensures FormatResult(res.(rows := Some(rows)), show) == FormatResult(res, show)
  {
    var columns := res.columns.GetOr([]);
    var b1, b2 := BodyLines(columns, rows, show), BodyLines(columns, res.rows.value, show);
    forall i | 0 <= i < |b1|
      ensures b1[i] == b2[i]
    {
      assert rows[i] == rows[..Min(|rows|, MaxRows)][i];
    }
    assert b1 == b2;
  }

  lemma Parts(a: string, b: string)
    ensures StartsWith(a + b, a) && EndsWith(a + b, b)
  {
    assert (a + b)[..|a|] == a;
    assert (a + b)[|a|..] == b;
  }

  /** The form of the output for any text in the fields, newlines included:
      an error opens it; otherwise the statement part and a blank line open
      it, and it ends with the no-columns note, with the zero-rows note, or
      with the table, whose title and header follow the blank line and whose
      truncation line comes last when rows were left out. */
  lemma FormatShape<V>(res: NL2SQLResponse<V>, show: V -> string)
    ensures var out, columns, rows := FormatResult(res, show), res.columns.GetOr([]), res.rows.GetOr([]);
      && (Truthy(res.error) ==> StartsWith(out, ErrorLead + res.error.value))
      && (!Truthy(res.error) ==> StartsWith(out, SqlHead(res.sql) + "\n" + "\n"))
      && (!Truthy(res.error) && |columns| == 0 ==> EndsWith(out, "\n" + NoColumns))
      && (!Truthy(res.error) && |columns| > 0 && |rows| == 0 ==> EndsWith(out, "\n" + NoRows))
      && (!Truthy(res.error) && |columns| > 0 && |rows| > 0 ==>
            StartsWith(out, SqlHead(res.sql) + "\n" + "\n" + Title() + "\n" + Join(columns, CellSep) + "\n"))
      && (!Truthy(res.error) && |columns| > 0 && 0 < |rows| <= MaxRows ==>
            EndsWith(out, Join(BodyLines(columns, rows, show), "\n")))
      && (!Truthy(res.error) && |columns| > 0 && |rows| > MaxRows ==>
            EndsWith(out, "\n" + TruncationLine(|rows| - MaxRows)))
  {
    var columns, rows := res.columns.GetOr([]), res.rows.GetOr([]);
    if Truthy(res.error) {
      ErrorLeads(res, show);
    } else if |columns| == 0 {
      FormatNoColumns(res, show);
      NoteParts(SqlHead(res.sql), NoColumns);
    } else if |rows| == 0 {
      FormatNoRows(res, show);
      NoteParts(SqlHead(res.sql), NoRows);
    } else {
      FormatTable(res, show);
      TableParts(SqlHead(res.sql), Title(), Join(columns, CellSep),
                 Join(BodyLines(columns, rows, show), "\n"), Truncation(|rows|));
    }
  }

  lemma NoteParts(h: string, note: string)
    ensures StartsWith(h + "\n" + "\n" + note, h + "\n" + "\n")
    ensures EndsWith(h + "\n" + "\n" + note, "\n" + note)
  {
    Parts(h + "\n" + "\n", note);
    assert h + "\n" + "\n" + note == h + "\n" + ("\n" + note);
    Parts(h + "\n", "\n" + note);
  }

  lemma TableParts(h: string, t: string, header: string, body: string, more: string)
    ensures var out := h + "\n" + "\n" + (t + "\n" + (header + "\n" + (body + more)));
      && StartsWith(out, h + "\n" + "\n")
      && StartsWith(out, h + "\n" + "\n" + t + "\n" + header + "\n")
      && EndsWith(out, more)
      && (more == "" ==> EndsWith(out, body))
  {
    var p, a, b := h + "\n" + "\n", t + "\n", header + "\n";
    var out := p + (a + (b + (body + more)));
    Parts(p, a + (b + (body + more)));
    Assoc(p, a, b + (body + more));
    Assoc(p + a, b, body + more);
    Parts(p + a + b, body + more);
    Assoc(p, t, "\n");
    Assoc(p + t + "\n", header, "\n");
    Assoc(p + a + b, body, more);
    Parts(p + a + b + body, more);
    if more == "" {
      assert p + a + b + body + more == p + a + b + body;
      Parts(p + a + b, body);
    }
  }

  /** The truncation line determines how many rows were left out. */
  lemma TruncationLineInjective(a: nat, b: nat)
    requires TruncationLine(a) == TruncationLine(b)
    ensures a == b
  {
    var p, q := Ellipsis + " (", " more rows)";
    var x, y := NatToString(a), NatToString(b);
    assert TruncationLine(a) == p + x + q;
    assert TruncationLine(b) == p + y + q;
    assert |x| == |y|;
    assert x == (p + x + q)[|p|..|p| + |x|];
    assert y == (p + y + q)[|p|..|p| + |y|];
    NatToStringInjective(a, b);
  }
}
