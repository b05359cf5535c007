/** The item-based table widget (a QTableWidget) that the hand-configured CRUD
    pages and the report tabs fill from query rows: row and column counts,
    horizontal header items and cell items, each of which may be missing. */
module Grid {
  import opened Values

  /** `"" if val is None else str(val)` for `row.get(col)`; a missing key
      shows as an empty cell too (`row.get(h, "")` prints as ""). */
  function CellText(row: Row, col: string): (t: string)
    ensures col !in row.entries ==> t == ""
    ensures col in row.entries ==> t == Display(row.entries[col])
  {
    match row.Get(col)
    case None => ""
    case Some(v) => Display(v)
  }

  /** The cell texts a grid shows for `rows` under the column names `columns`,
      one grid row per result row. */
  function GridOf(columns: seq<string>, rows: seq<Row>): (g: seq<seq<Option<string>>>)
    ensures |g| == |rows|
    ensures forall r :: 0 <= r < |g| ==> |g[r]| == |columns|
    ensures forall r, c :: 0 <= r < |rows| && 0 <= c < |columns| ==>
              g[r][c] == Some(CellText(rows[r], columns[c]))
  {
    seq(|rows|, r requires 0 <= r < |rows| =>
      seq(|columns|, c requires 0 <= c < |columns| => Some(CellText(rows[r], columns[c]))))
  }

  function Labels(names: seq<string>): (h: seq<Option<string>>)
    ensures |h| == |names| && forall c :: 0 <= c < |names| ==> h[c] == Some(names[c])
  {
    seq(|names|, c requires 0 <= c < |names| => Some(names[c]))
  }

  class TableWidget {
    var rowCount: nat
    var columnCount: nat
    /** Horizontal header items, by column. */
    var header: map<nat, string>
    /** Cell items, by (row, column); a cell without an item is absent. */
    var items: map<(nat, nat), string>

    ghost predicate Valid()
      reads this
    {
      && (forall c :: c in header ==> c < columnCount)
      && (forall p :: p in items ==> p.0 < rowCount && p.1 < columnCount)
    }

    constructor ()
      ensures Valid()
      ensures rowCount == 0 && columnCount == 0 && header == map[] && items == map[]
    {
      rowCount, columnCount := 0, 0;
      header, items := map[], map[];
    }

    /** `item(r, c).text()`, or None where `item(r, c)` is None. */
    function Item(r: int, c: int): (t: Option<string>)
      reads this
      ensures t.Some? <==> 0 <= r && 0 <= c && (r as nat, c as nat) in items
      ensures t.Some? ==> t.value == items[(r as nat, c as nat)]
    {
      if 0 <= r && 0 <= c && (r as nat, c as nat) in items then Some(items[(r as nat, c as nat)]) else None
    }

    /** `horizontalHeaderItem(c).text()`, or None where there is no item. */
    function HeaderItem(c: int): (t: Option<string>)
      reads this
      ensures t.Some? <==> 0 <= c && c as nat in header
      ensures t.Some? ==> t.value == header[c as nat]
    {
      if 0 <= c && c as nat in header then Some(header[c as nat]) else None
    }

    /** The header row as the widget shows it. */
    ghost function Headers(): (h: seq<Option<string>>)
      reads this
      ensures |h| == columnCount && forall c :: 0 <= c < columnCount ==> h[c] == HeaderItem(c)
    {
      seq(columnCount, c reads this => HeaderItem(c))
    }

    /** The cells as the widget shows them, row by row. */
    ghost function Cells(): (g: seq<seq<Option<string>>>)
      reads this
      ensures |g| == rowCount
      ensures forall r :: 0 <= r < rowCount ==> |g[r]| == columnCount
      ensures forall r, c :: 0 <= r < rowCount && 0 <= c < columnCount ==> g[r][c] == Item(r, c)
    {
      seq(rowCount, r reads this => seq(columnCount, c reads this => Item(r, c)))
    }

    /** `clear()`: drops every item and header item; the counts stay. */
    method Clear()
      modifies this
      ensures Valid()
      ensures rowCount == old(rowCount) && columnCount == old(columnCount)
      ensures header == map[] && items == map[]
    {
      header, items := map[], map[];
    }

    /** `setRowCount(n)`: rows at or beyond `n` and their items go. */
    method SetRowCount(n: nat)
      requires Valid()
      modifies this
      ensures Valid()
      ensures rowCount == n && columnCount == old(columnCount) && header == old(header)
      ensures items == map p | p in old(items) && p.0 < n :: old(items)[p]
    {
      rowCount := n;
      items := map p | p in items && p.0 < n :: items[p];
    }

    /** `setColumnCount(n)`: columns at or beyond `n`, their header items and
        their cell items go. */
    method SetColumnCount(n: nat)
      requires Valid()
      modifies this
      ensures Valid()
      ensures columnCount == n && rowCount == old(rowCount)
      ensures header == map c | c in old(header) && c < n :: old(header)[c]
      ensures items == map p | p in old(items) && p.1 < n :: old(items)[p]
    {
      columnCount := n;
      header := map c | c in header && c < n :: header[c];
      items := map p | p in items && p.1 < n :: items[p];
    }

    /** `setHorizontalHeaderLabels(labels)`: labels the first columns, as many
        as both the column count and the list allow. */
    method SetHorizontalHeaderLabels(labels: seq<string>)
      requires Valid()
      modifies this
      ensures Valid()
      ensures rowCount == old(rowCount) && columnCount == old(columnCount) && items == old(items)
      ensures header == old(header) + map c: nat | c < columnCount && c < |labels| :: labels[c]
    {
      header := header + map c: nat | c < columnCount && c < |labels| :: labels[c];
    }

    /** `setItem(r, c, QTableWidgetItem(text))`; ignored outside the grid. */
    method SetItem(r: nat, c: nat, text: string)
      requires Valid()
      modifies this
      ensures Valid()
      ensures rowCount == old(rowCount) && columnCount == old(columnCount) && header == old(header)
      ensures items == if r < rowCount && c < columnCount then old(items)[(r, c) := text] else old(items)
    {
      if r < rowCount && c < columnCount {
        items := items[(r, c) := text];
      }
    }

    /** The filling both kinds of page perform: size the grid to the column
        names and the rows, label the columns, then set every cell, row by
        row and column by column. */
    method Populate(columns: seq<string>, rows: seq<Row>)
      requires Valid()
      modifies this
      ensures Valid()
      ensures rowCount == |rows| && columnCount == |columns|
      ensures Headers() == Labels(columns)
      ensures Cells() == GridOf(columns, rows)
    {
      SetColumnCount(|columns|);
      SetHorizontalHeaderLabels(columns);
      assert forall c :: 0 <= c < |columns| ==> c in header && header[c] == columns[c];
      SetRowCount(|rows|);
      for r := 0 to |rows|
        invariant Valid()
        invariant rowCount == |rows| && columnCount == |columns|
        invariant forall c :: 0 <= c < |columns| ==> c in header && header[c] == columns[c]
        invariant forall i, c :: 0 <= i < r && 0 <= c < |columns| ==>
                    (i, c) in items && items[(i, c)] == CellText(rows[i], columns[c])
      {
        FillRow(r, columns, rows[r]);
      }
      ShowsGrid(columns, rows);
    }

    /** The inner loop of the filling: every cell of row `r`. */
    method FillRow(r: nat, columns: seq<string>, row: Row)
      requires Valid() && r < rowCount && columnCount == |columns|
      modifies this
      ensures Valid()
      ensures rowCount == old(rowCount) && columnCount == old(columnCount) && header == old(header)
      ensures forall k :: 0 <= k < |columns| ==> (r, k) in items && items[(r, k)] == CellText(row, columns[k])
      ensures forall p :: p in old(items) && p.0 != r ==> p in items && items[p] == old(items)[p]
    {
      for c := 0 to |columns|
        invariant Valid()
        invariant rowCount == old(rowCount) && columnCount == old(columnCount) && header == old(header)
        invariant forall k :: 0 <= k < c ==> (r, k) in items && items[(r, k)] == CellText(row, columns[k])
        invariant forall p :: p in old(items) && p.0 != r ==> p in items && items[p] == old(items)[p]
      {
        SetItem(r, c, CellText(row, columns[c]));
      }
    }

    lemma ShowsGrid(columns: seq<string>, rows: seq<Row>)
      requires rowCount == |rows| && columnCount == |columns|
      requires forall c :: 0 <= c < |columns| ==> c in header && header[c] == columns[c]
      requires forall i, c :: 0 <= i < |rows| && 0 <= c < |columns| ==>
                 (i, c) in items && items[(i, c)] == CellText(rows[i], columns[c])
      ensures Headers() == Labels(columns)
      ensures Cells() == GridOf(columns, rows)
    {
      var g, h := Cells(), GridOf(columns, rows);
      forall r | 0 <= r < |rows| ensures g[r] == h[r] {
        assert forall c :: 0 <= c < |columns| ==> g[r][c] == h[r][c];
      }
    }
  }
}
