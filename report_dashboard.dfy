/** The report dashboard: one tab per report query, each showing the query's
    rows in a table widget and exporting that table as an HTML document for
    printing to PDF; a refresh reloads every tab. */
module ReportDashboard {
  import opened Values
  import opened Grid
  import opened Html

  // ---------- what a table widget shows ----------

  /** The counts, the header row and the cells of a table widget. */
  datatype GridView = GridView(rowCount: nat, columnCount: nat,
                               headers: seq<Option<string>>, cells: seq<seq<Option<string>>>)

  const EmptyView := GridView(0, 0, [], [])

  ghost function View(t: TableWidget): GridView
    reads t
  {
    GridView(t.rowCount, t.columnCount, t.Headers(), t.Cells())
  }

  /** The view has one header per column and one cell per row and column. */
  predicate Shaped(v: GridView)
  {
    && |v.headers| == v.columnCount
    && |v.cells| == v.rowCount
    && forall r :: 0 <= r < |v.cells| ==> |v.cells[r]| == v.columnCount
  }

  /** Every column has a header item. */
  predicate Complete(v: GridView)
  {
    forall c :: 0 <= c < |v.headers| ==> v.headers[c].Some?
  }

  /** `load_data` on the outcome of the report query: None when the query
      raised, in which case the table is left as it was. An empty result
      empties the table; otherwise the columns are the first row's keys. */
  function Load(v: GridView, result: Option<seq<Row>>): GridView
  {
    match result
    case None => v
    case Some(rows) =>
      if rows == [] then EmptyView
      else
        var keys := rows[0].keys;
        GridView(|rows|, |keys|, Labels(keys), GridOf(keys, rows))
  }

  /** Loading keeps the view well formed and every column headed. */
  lemma LoadKeepsComplete(v: GridView, result: Option<seq<Row>>)
    requires Shaped(v) && Complete(v)
    ensures Shaped(Load(v, result)) && Complete(Load(v, result))
  {
  }

  /** A load that returned rows shows exactly those rows under the first
      row's keys, whatever the table showed before. */
  lemma LoadShowsRows(v: GridView, rows: seq<Row>)
    requires rows != []
    ensures var w := Load(v, Some(rows));
            var keys := rows[0].keys;
            && Shaped(w) && Complete(w) && w.columnCount == |keys| && w.rowCount == |rows|
            && (forall c :: 0 <= c < |keys| ==> w.headers[c] == Some(keys[c]))
            && (forall r, c :: 0 <= r < |rows| && 0 <= c < |keys| ==> w.cells[r][c] == Some(CellText(rows[r], keys[c])))
            && Load(w, Some(rows)) == w
  {
  }

  // ---------- the exported HTML ----------

  const TableOpen := "<table border='1' cellspacing='0' cellpadding='4'>"

  function TitleLine(title: string): string
  {
    "<h2>" + HtmlEscape(title) + "</h2>"
  }

  function HeaderLine(h: string): string
  {
    "<th>" + HtmlEscape(h) + "</th>"
  }

  /** A cell without an item exports as an empty cell. */
  function CellLine(item: Option<string>): string
  {
    "<td>" + HtmlEscape(if item.Some? then item.value else "") + "</td>"
  }

  function HeaderLines(headers: seq<string>): (ls: seq<string>)
    ensures |ls| == |headers| && forall c :: 0 <= c < |headers| ==> ls[c] == HeaderLine(headers[c])
  {
    seq(|headers|, c requires 0 <= c < |headers| => HeaderLine(headers[c]))
  }

  function CellLines(row: seq<Option<string>>): (ls: seq<string>)
    ensures |ls| == |row| && forall c :: 0 <= c < |row| ==> ls[c] == CellLine(row[c])
  {
    seq(|row|, c requires 0 <= c < |row| => CellLine(row[c]))
  }

  function RowLines(row: seq<Option<string>>): seq<string>
  {
    ["<tr>"] + CellLines(row) + ["</tr>"]
  }

  /** The table rows, one `<tr>` block per grid row. */
  function BodyLines(cells: seq<seq<Option<string>>>): seq<string>
    decreases |cells|
  {
    if cells == [] then [] else BodyLines(cells[..|cells| - 1]) + RowLines(cells[|cells| - 1])
  }

  /** Every line of the document `export_pdf` builds, before it joins them
      with newlines. */
  function ExportLines(title: string, headers: seq<string>, cells: seq<seq<Option<string>>>): seq<string>
  {
    FrontLines(title, headers) + BodyLines(cells) + ["</table>"]
  }

  /** The title, the table's opening tag and its header row. */
  function FrontLines(title: string, headers: seq<string>): seq<string>
  {
    [TitleLine(title), TableOpen, "<tr>"] + HeaderLines(headers) + ["</tr>"]
  }

  /** The header texts of a complete header row. */
  function Texts(headers: seq<Option<string>>): (ts: seq<string>)
    requires forall c :: 0 <= c < |headers| ==> headers[c].Some?
    ensures |ts| == |headers| && forall c :: 0 <= c < |headers| ==> headers[c] == Some(ts[c])
  {
    seq(|headers|, c requires 0 <= c < |headers| => headers[c].value)
  }

  /** Rows of `n` cells take `n + 2` lines each. */
  lemma {:induction false} BodyLinesCount(cells: seq<seq<Option<string>>>, n: nat)
    requires forall r :: 0 <= r < |cells| ==> |cells[r]| == n
    ensures |BodyLines(cells)| == |cells| * (n + 2)
    decreases |cells|
  {
    if cells != [] {
      var k := |cells| - 1;
      assert forall r :: 0 <= r < k ==> cells[..k][r] == cells[r];
      BodyLinesCount(cells[..k], n);
      assert |BodyLines(cells)| == k * (n + 2) + (n + 2);
    }
  }

  lemma Middle<T>(x: seq<T>, y: seq<T>, z: seq<T>, j: int)
    requires 0 <= j < |y|
    ensures |x| + j < |x + y + z| && (x + y + z)[|x| + j] == y[j]
  {
  }

  lemma RowLinesAt(row: seq<Option<string>>)
    ensures |RowLines(row)| == |row| + 2
    ensures RowLines(row)[0] == "<tr>" && RowLines(row)[|row| + 1] == "</tr>"
    ensures forall c :: 0 <= c < |row| ==> RowLines(row)[1 + c] == CellLine(row[c])
  {
    forall c | 0 <= c < |row| ensures RowLines(row)[1 + c] == CellLine(row[c]) {
      Middle(["<tr>"], CellLines(row), ["</tr>"], c);
    }
  }

  /** Line `j` of row `r`'s block sits `j` lines after the rows before it. */
  lemma {:induction false} BodyIndex(cells: seq<seq<Option<string>>>, r: nat, j: nat)
    requires r < |cells| && j < |RowLines(cells[r])|
    ensures |BodyLines(cells[..r])| + j < |BodyLines(cells)|
    ensures BodyLines(cells)[|BodyLines(cells[..r])| + j] == RowLines(cells[r])[j]
    decreases |cells|
  {
    var k := |cells| - 1;
    var init := cells[..k];
    assert BodyLines(cells) == BodyLines(init) + RowLines(cells[k]);
    if r < k {
      assert init[..r] == cells[..r] && init[r] == cells[r];
      BodyIndex(init, r, j);
    }
  }

  /** Row `r` opens at line `r * (n + 2)` of the body, holds its cells in
      column order and closes after them. */
  lemma BodyLinesAt(cells: seq<seq<Option<string>>>, n: nat, r: nat)
    requires forall i :: 0 <= i < |cells| ==> |cells[i]| == n
    requires r < |cells|
    ensures r * (n + 2) + n + 1 < |BodyLines(cells)|
    ensures BodyLines(cells)[r * (n + 2)] == "<tr>"
    ensures forall c :: 0 <= c < n ==> BodyLines(cells)[r * (n + 2) + 1 + c] == CellLine(cells[r][c])
    ensures BodyLines(cells)[r * (n + 2) + n + 1] == "</tr>"
  {
    var pre, row := cells[..r], cells[r];
    assert forall i :: 0 <= i < r ==> pre[i] == cells[i];
    BodyLinesCount(pre, n);
    var off := r * (n + 2);
    assert |BodyLines(pre)| == off;
    RowLinesAt(row);
    BodyIndex(cells, r, 0);
    BodyIndex(cells, r, n + 1);
    forall c | 0 <= c < n ensures BodyLines(cells)[off + 1 + c] == CellLine(row[c]) {
      BodyIndex(cells, r, 1 + c);
    }
  }

  lemma Prefix<T>(x: seq<T>, y: seq<T>, z: seq<T>, k: int)
    requires 0 <= k < |x|
    ensures (x + y + z)[k] == x[k]
  {
  }

  /** The document opens with the title, the table and the header row, and
      ends with the table: `5 + n + rows * (n + 2)` lines for `n` columns. */
  lemma ExportFrame(title: string, headers: seq<string>, cells: seq<seq<Option<string>>>)
    requires forall r :: 0 <= r < |cells| ==> |cells[r]| == |headers|
    ensures var ls, n := ExportLines(title, headers, cells), |headers|;
            && |ls| == 5 + n + |cells| * (n + 2)
            && ls[0] == TitleLine(title) && ls[1] == TableOpen && ls[2] == "<tr>"
            && ls[3 + n] == "</tr>" && ls[|ls| - 1] == "</table>"
  {
    var n := |headers|;
    var f, b := FrontLines(title, headers), BodyLines(cells);
    BodyLinesCount(cells, n);
    Middle([], [TitleLine(title), TableOpen, "<tr>"], HeaderLines(headers) + ["</tr>"], 0);
    Prefix(f, b, ["</table>"], 0);
    Prefix(f, b, ["</table>"], 1);
    Prefix(f, b, ["</table>"], 2);
    Prefix(f, b, ["</table>"], 3 + n);
    Middle(f + b, ["</table>"], [], 0);
  }

  /** Column `c` is headed on line `3 + c`. */
  lemma ExportHeaderAt(title: string, headers: seq<string>, cells: seq<seq<Option<string>>>, c: nat)
    requires c < |headers|
    ensures 3 + c < |ExportLines(title, headers, cells)|
    ensures ExportLines(title, headers, cells)[3 + c] == HeaderLine(headers[c])
  {
    var f := FrontLines(title, headers);
    Middle([TitleLine(title), TableOpen, "<tr>"], HeaderLines(headers), ["</tr>"], c);
    Prefix(f, BodyLines(cells), ["</table>"], 3 + c);
  }

  /** Cell `(r, c)` is on line `5 + n + r * (n + 2) + c`. */
  lemma ExportCellAt(title: string, headers: seq<string>, cells: seq<seq<Option<string>>>, r: nat, c: nat)
    requires forall i :: 0 <= i < |cells| ==> |cells[i]| == |headers|
    requires r < |cells| && c < |headers|
    ensures var n := |headers|;
            && 5 + n + r * (n + 2) + c < |ExportLines(title, headers, cells)|
            && ExportLines(title, headers, cells)[5 + n + r * (n + 2) + c] == CellLine(cells[r][c])
  {
    var n := |headers|;
    var f, b := FrontLines(title, headers), BodyLines(cells);
    assert |f| == 4 + n;
    BodyLinesAt(cells, n, r);
    var j := r * (n + 2) + 1 + c;
    Middle(f, b, ["</table>"], j);
    assert 5 + n + r * (n + 2) + c == |f| + j;
  }

  /** A tag-delimited line's inner text reads back, through the entity
      decoding, as the text it came from, and holds no `<`, `>` or `"`: the
      tags are the only markup in the line. */
  predicate Carries(line: string, open: string, close: string, text: string)
  {
    && |line| >= |open| + |close|
    && line[..|open|] == open && line[|line| - |close|..] == close
    && Unescape(line[|open|..|line| - |close|]) == text
    && forall k :: |open| <= k < |line| - |close| ==> line[k] != '<' && line[k] != '>' && line[k] != '"'
  }

  lemma Delimited(open: string, text: string, close: string)
    ensures Carries(open + HtmlEscape(text) + close, open, close, text)
  {
    var e := HtmlEscape(text);
    var line := open + e + close;
    assert line[..|open|] == open;
    assert line[|line| - |close|..] == close;
    assert line[|open|..|line| - |close|] == e;
    HtmlEscapeRoundTrip(text);
    HtmlEscapeNoMarkup(text);
    forall k | |open| <= k < |line| - |close|
      ensures line[k] != '<' && line[k] != '>' && line[k] != '"'
    {
      assert line[k] == e[k - |open|];
    }
  }

  /** The title survives the export: escaped between its own tags. */
  lemma ExportCarriesTitle(title: string, headers: seq<string>, cells: seq<seq<Option<string>>>)
    requires forall r :: 0 <= r < |cells| ==> |cells[r]| == |headers|
    ensures Carries(ExportLines(title, headers, cells)[0], "<h2>", "</h2>", title)
  {
    ExportFrame(title, headers, cells);
    Delimited("<h2>", title, "</h2>");
  }

  /** Every header survives the export. */
  lemma ExportCarriesHeader(title: string, headers: seq<string>, cells: seq<seq<Option<string>>>, c: nat)
    requires c < |headers|
    ensures 3 + c < |ExportLines(title, headers, cells)|
    ensures Carries(ExportLines(title, headers, cells)[3 + c], "<th>", "</th>", headers[c])
  {
    ExportHeaderAt(title, headers, cells, c);
    Delimited("<th>", headers[c], "</th>");
  }

  /** Every cell text survives the export; a cell without an item exports
      as the empty text. */
  lemma ExportCarriesCell(title: string, headers: seq<string>, cells: seq<seq<Option<string>>>, r: nat, c: nat)
    requires forall i :: 0 <= i < |cells| ==> |cells[i]| == |headers|
    requires r < |cells| && c < |headers|
    ensures var k := 5 + |headers| + r * (|headers| + 2) + c;
            && k < |ExportLines(title, headers, cells)|
            && Carries(ExportLines(title, headers, cells)[k], "<td>", "</td>",
                       if cells[r][c].Some? then cells[r][c].value else "")
  {
    ExportCellAt(title, headers, cells, r, c);
    Delimited("<td>", if cells[r][c].Some? then cells[r][c].value else "", "</td>");
  }

  /** After a load that returned rows every column is headed by the first
      row's keys, so the export heads its columns with those keys. */
  lemma ExportAfterLoad(v: GridView, rows: seq<Row>)
    requires rows != []
    ensures Complete(Load(v, Some(rows)))
    ensures Texts(Load(v, Some(rows)).headers) == rows[0].keys
  {
    var w := Load(v, Some(rows));
    assert forall c :: 0 <= c < |w.headers| ==> w.headers[c] == Some(rows[0].keys[c]);
  }

  /** An empty report exports the title and an empty table. */
  lemma EmptyExport(title: string)
    ensures ExportLines(title, Texts(Load(EmptyView, Some([])).headers), Load(EmptyView, Some([])).cells)
            == [TitleLine(title), TableOpen, "<tr>", "</tr>", "</table>"]
  {
    assert Texts([]) == [];
    assert HeaderLines([]) == [];
  }

  // ---------- the tabs ----------

  class ReportTab {
    const title: string
    const query: string
    const table: TableWidget

    ghost predicate Valid()
      reads table
    {
      table.Valid()
    }

    /** `ReportTab(title, query)`: a new table, then a first load with the
        query's outcome. */
    constructor (title: string, query: string, result: Option<seq<Row>>)
      ensures Valid() && fresh(table)
      ensures this.title == title && this.query == query
      ensures View(table) == Load(EmptyView, result)
    {
      this.title, this.query := title, query;
      table := new TableWidget();
      new;
      assert View(table) == EmptyView;
      LoadData(result);
    }

    /** `load_data`, with the query's outcome as a parameter. */
    method LoadData(result: Option<seq<Row>>)
      requires Valid()
      modifies table
      ensures Valid()
      ensures View(table) == Load(old(View(table)), result)
    {
      if result.None? {
        return;
      }
      var rows := result.value;
      if rows == [] {
        table.Clear();
        table.SetRowCount(0);
        table.SetColumnCount(0);
        assert View(table) == EmptyView;
        return;
      }
      var headers := rows[0].keys;
      table.Populate(headers, rows);
    }

    /** The `<tr>` block of grid row `r`. */
    method RowHtml(r: nat) returns (lines: seq<string>)
      requires Valid() && r < table.rowCount
      ensures lines == RowLines(table.Cells()[r])
    {
      ghost var row := table.Cells()[r];
      lines := ["<tr>"];
      for c := 0 to table.columnCount
        invariant lines == ["<tr>"] + CellLines(row[..c])
      {
        var it := table.Item(r, c);
        assert row[..c + 1] == row[..c] + [it];
        lines := lines + ["<td>" + HtmlEscape(if it.Some? then it.value else "") + "</td>"];
        assert CellLines(row[..c + 1]) == CellLines(row[..c]) + [CellLine(it)];
      }
      assert row[..table.columnCount] == row;
      lines := lines + ["</tr>"];
    }

    /** `export_pdf` to the chosen `path`: the HTML document it prints, or
        None when no path was chosen or a column has no header item (where
        the source's `horizontalHeaderItem(i).text()` raises). */
    method ExportPdf(path: string) returns (html: Option<string>)
      requires Valid()
      ensures html.Some? <==> path != "" && Complete(View(table))
      ensures html.Some? ==> html.value == Join("\n", ExportLines(title, Texts(table.Headers()), table.Cells()))
    {
      if path == "" {
        return None;
      }
      var colCount, rowCount := table.columnCount, table.rowCount;
      var headers: seq<string> := [];
      for i := 0 to colCount
        invariant |headers| == i && forall k :: 0 <= k < i ==> table.HeaderItem(k) == Some(headers[k])
      {
        var h := table.HeaderItem(i);
        if h.None? {
          assert table.Headers()[i].None?;
          return None;
        }
        headers := headers + [h.value];
      }
      assert headers == Texts(table.Headers());
      var lines := ["<h2>" + HtmlEscape(title) + "</h2>", "<table border='1' cellspacing='0' cellpadding='4'>", "<tr>"];
      ghost var front := lines;
      for i := 0 to |headers|
        invariant lines == front + HeaderLines(headers[..i])
      {
        assert HeaderLines(headers[..i + 1]) == HeaderLines(headers[..i]) + [HeaderLine(headers[i])];
        lines := lines + ["<th>" + HtmlEscape(headers[i]) + "</th>"];
      }
      assert headers[..|headers|] == headers;
      lines := lines + ["</tr>"];
      ghost var head := lines;
      ghost var cells := table.Cells();
      for r := 0 to rowCount
        invariant lines == head + BodyLines(cells[..r])
      {
        var rowLines := RowHtml(r);
        assert cells[..r + 1][..r] == cells[..r];
        lines := lines + rowLines;
      }
      assert cells[..rowCount] == cells;
      lines := lines + ["</table>"];
      html := Some(Join("\n", lines));
    }
  }

  // ---------- the dashboard ----------

  /** The ten report tabs, in order. */
  const ReportTitles: seq<string> := [
    "1. Data Users", "2. Data Admin", "3. Data Drivers", "4. Data Pesanan", "5. Data Pembayaran",
    "6. Detail Pesanan", "7. Detail Pembayaran", "8. Pesanan Belum Dibayar",
    "9. Rekap Pesanan per Driver", "10. Rekap Pembayaran per Metode"]

  class DashboardReport {
    const tabs: seq<ReportTab>

    ghost function Tables(): set<object>
    {
      set i | 0 <= i < |tabs| :: tabs[i].table
    }

    /** Every tab is well formed and has a table of its own. */
    ghost predicate Valid()
      reads Tables()
    {
      && (forall i :: 0 <= i < |tabs| ==> tabs[i].Valid())
      && (forall i, j :: 0 <= i < j < |tabs| ==> tabs[i].table != tabs[j].table)
    }

    /** `DashboardReport()`: one tab per report, each loaded once with its
        query's outcome. */
    constructor (queries: seq<string>, results: seq<Option<seq<Row>>>)
      requires |queries| == |ReportTitles| && |results| == |ReportTitles|
      ensures Valid()
      ensures |tabs| == |ReportTitles|
      ensures forall i :: 0 <= i < |tabs| ==>
                tabs[i].title == ReportTitles[i] && tabs[i].query == queries[i]
                && fresh(tabs[i].table) && View(tabs[i].table) == Load(EmptyView, results[i])
    {
      var ts: seq<ReportTab> := [];
      for i := 0 to |ReportTitles|
        invariant |ts| == i
        invariant forall k :: 0 <= k < i ==>
                    ts[k].title == ReportTitles[k] && ts[k].query == queries[k] && ts[k].Valid()
                    && fresh(ts[k].table) && View(ts[k].table) == Load(EmptyView, results[k])
        invariant forall k, l :: 0 <= k < l < i ==> ts[k].table != ts[l].table
      {
        var t := new ReportTab(ReportTitles[i], queries[i], results[i]);
        ts := ts + [t];
      }
      tabs := ts;
    }

    /** `refresh_all`: every tab reloads, in tab order, with its query's
        outcome; a tab whose query fails keeps what it showed. */
    method RefreshAll(results: seq<Option<seq<Row>>>)
      requires Valid() && |results| == |tabs|
      modifies Tables()
      ensures Valid()
      ensures forall i :: 0 <= i < |tabs| ==> View(tabs[i].table) == Load(old(View(tabs[i].table)), results[i])
    {
      for i := 0 to |tabs|
        invariant Valid()
        invariant forall k :: 0 <= k < i ==> View(tabs[k].table) == Load(old(View(tabs[k].table)), results[k])
        invariant forall k :: i <= k < |tabs| ==> View(tabs[k].table) == old(View(tabs[k].table))
      {
        tabs[i].LoadData(results[i]);
      }
    }
  }
}
