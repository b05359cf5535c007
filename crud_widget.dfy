/** The schema-driven CRUD widget: it reads a table's columns from the
    catalog, lists every row through a table model, and builds INSERT /
    UPDATE / DELETE statements from a generic form of line edits. */
module CrudWidget {
  import opened Values
  import opened Sql

  // ---------- the catalog ----------

  /** A row of `SHOW COLUMNS FROM t`: `Field`, `Key`, `Extra` (possibly
      NULL), `Null` and `Type`. */
  datatype CatalogRow = CatalogRow(field: string, key: string, extra: Option<string>,
                                   nullFlag: string, colType: string)

  datatype ColumnInfo = ColumnInfo(name: string, isPk: bool, isAuto: bool, nullable: bool, colType: string)

  /** `extra or ""`. */
  function ExtraText(extra: Option<string>): string
  {
    if extra.Some? then extra.value else ""
  }

  /** One catalog row as a column: the pk is the `PRI` key, an
      auto-increment column mentions `auto_increment` in `Extra`, and a
      nullable one says `YES` under `Null`. */
  function ColumnOf(r: CatalogRow): (c: ColumnInfo)
    ensures c.name == r.field && c.colType == r.colType
    ensures c.isPk <==> r.key == "PRI"
    ensures c.isAuto <==> exists i :: OccursAt(ExtraText(r.extra), "auto_increment", i)
    ensures r.extra.None? ==> !c.isAuto
    ensures c.nullable <==> r.nullFlag == "YES"
  {
    ColumnInfo(r.field, r.key == "PRI", Contains(ExtraText(r.extra), "auto_increment"),
               r.nullFlag == "YES", r.colType)
  }

  /** `_fetch_columns` once the catalog rows are fetched: one column per
      row, in catalog order. */
  method FetchColumns(rows: seq<CatalogRow>) returns (cols: seq<ColumnInfo>)
    ensures |cols| == |rows|
    ensures forall i :: 0 <= i < |rows| ==> cols[i] == ColumnOf(rows[i])
  {
    cols := [];
    for i := 0 to |rows|
      invariant |cols| == i
      invariant forall j :: 0 <= j < i ==> cols[j] == ColumnOf(rows[j])
    {
      cols := cols + [ColumnOf(rows[i])];
    }
  }

  /** `next((c for c in columns if c.is_pk), None)`. */
  function PkCol(cols: seq<ColumnInfo>): (r: Option<ColumnInfo>)
    ensures r.None? <==> forall i :: 0 <= i < |cols| ==> !cols[i].isPk
    ensures r.Some? ==> exists i :: 0 <= i < |cols| && cols[i] == r.value && r.value.isPk
                                    && forall j :: 0 <= j < i ==> !cols[j].isPk
    decreases |cols|
  {
    if cols == [] then None
    else if cols[0].isPk then Some(cols[0])
    else
      var r := PkCol(cols[1..]);
      assert forall j :: 1 <= j < |cols| ==> cols[j] == cols[1..][j - 1];
      if r.Some? then
        var i :| 0 <= i < |cols[1..]| && cols[1..][i] == r.value && r.value.isPk
                 && forall j :: 0 <= j < i ==> !cols[1..][j].isPk;
        assert cols[i + 1] == r.value;
        r
      else r
  }

  /** Table columns have distinct names. */
  predicate DistinctColumns(cols: seq<ColumnInfo>)
  {
    forall i, j :: 0 <= i < j < |cols| ==> cols[i].name != cols[j].name
  }

  /** The columns the form shows: every column that is not auto-increment,
      in schema order. */
  function NonAuto(cols: seq<ColumnInfo>): (r: seq<ColumnInfo>)
    ensures |r| <= |cols|
    ensures forall i :: 0 <= i < |r| ==> !r[i].isAuto && r[i] in cols
    ensures forall i :: 0 <= i < |cols| && !cols[i].isAuto ==> cols[i] in r
    decreases |cols|
  {
    if cols == [] then []
    else
      var init := cols[..|cols| - 1];
      var c := cols[|cols| - 1];
      assert forall i :: 0 <= i < |init| ==> init[i] == cols[i];
      if c.isAuto then NonAuto(init) else NonAuto(init) + [c]
  }

  /** The columns an UPDATE assigns: neither the pk nor auto-increment, in
      schema order. */
  function Assigned(cols: seq<ColumnInfo>): (r: seq<ColumnInfo>)
    ensures |r| <= |cols|
    ensures forall i :: 0 <= i < |r| ==> !r[i].isPk && !r[i].isAuto && r[i] in cols
    ensures forall i :: 0 <= i < |cols| && !cols[i].isPk && !cols[i].isAuto ==> cols[i] in r
    decreases |cols|
  {
    if cols == [] then []
    else
      var init := cols[..|cols| - 1];
      var c := cols[|cols| - 1];
      assert forall i :: 0 <= i < |init| ==> init[i] == cols[i];
      if c.isPk || c.isAuto then Assigned(init) else Assigned(init) + [c]
  }

  /** Adding a column to the catalogue adds it to the form's columns,
      last, exactly when it is not auto-increment. */
  lemma NonAutoSnoc(s: seq<ColumnInfo>, c: ColumnInfo)
    ensures NonAuto(s + [c]) == NonAuto(s) + (if c.isAuto then [] else [c])
  {
    assert (s + [c])[..|s|] == s;
  }

  /** The form's columns keep the schema order: splitting the catalogue
      anywhere splits the form's columns at the same place. */
  lemma {:induction false} NonAutoAppend(a: seq<ColumnInfo>, b: seq<ColumnInfo>)
    ensures NonAuto(a + b) == NonAuto(a) + NonAuto(b)
    decreases |b|
  {
    if b == [] {
      assert a + b == a;
    } else {
      var init, c := b[..|b| - 1], b[|b| - 1];
      assert b == init + [c];
      assert a + b == (a + init) + [c];
      NonAutoAppend(a, init);
      NonAutoSnoc(a + init, c);
      NonAutoSnoc(init, c);
    }
  }

  /** Adding a column to the catalogue adds it to the assigned columns,
      last, exactly when it is neither the pk nor auto-increment. */
  lemma AssignedSnoc(s: seq<ColumnInfo>, c: ColumnInfo)
    ensures Assigned(s + [c]) == Assigned(s) + (if c.isPk || c.isAuto then [] else [c])
  {
    assert (s + [c])[..|s|] == s;
  }

  /** The assigned columns keep the schema order in the same way. */
  lemma {:induction false} AssignedAppend(a: seq<ColumnInfo>, b: seq<ColumnInfo>)
    ensures Assigned(a + b) == Assigned(a) + Assigned(b)
    decreases |b|
  {
    if b == [] {
      assert a + b == a;
    } else {
      var init, c := b[..|b| - 1], b[|b| - 1];
      assert b == init + [c];
      assert a + b == (a + init) + [c];
      AssignedAppend(a, init);
      AssignedSnoc(a + init, c);
      AssignedSnoc(init, c);
    }
  }

  function ColumnNames(cols: seq<ColumnInfo>): (r: seq<string>)
    ensures |r| == |cols| && forall i :: 0 <= i < |cols| ==> r[i] == cols[i].name
  {
    seq(|cols|, i requires 0 <= i < |cols| => cols[i].name)
  }

  /** With distinct column names, the UPDATE never assigns the pk column. */
  lemma PkNeverAssigned(cols: seq<ColumnInfo>)
    requires DistinctColumns(cols) && PkCol(cols).Some?
    ensures PkCol(cols).value.name !in ColumnNames(Assigned(cols))
  {
    var pk := PkCol(cols).value;
    var i :| 0 <= i < |cols| && cols[i] == pk && pk.isPk;
    var names := ColumnNames(Assigned(cols));
    forall k | 0 <= k < |names| ensures names[k] != pk.name {
      var c := Assigned(cols)[k];
      var j :| 0 <= j < |cols| && cols[j] == c;
      assert j != i by {
        assert !c.isPk;
      }
    }
  }

  // ---------- the table model ----------

  /** `TableModel(headers, data)`: the column names of `SELECT *` and its rows. */
  datatype TableModel = TableModel(headers: seq<string>, dataRows: seq<seq<Value>>)
  {
    /** Every row has one value per header, as the cursor returns them. */
    ghost predicate Shaped()
    {
      forall r :: 0 <= r < |dataRows| ==> |dataRows[r]| == |headers|
    }
  }

  /** A view index: none, or a cell of the model. */
  datatype ModelIndex = NoIndex | At(row: nat, column: nat)

  datatype Role = DisplayRole | OtherRole

  datatype Orientation = Horizontal | Vertical

  /** `TableModel.data`: a cell as its text for the display role, None
      otherwise. The view asks only for cells inside the model. */
  function Data(m: TableModel, index: ModelIndex, role: Role): (r: Option<string>)
    requires index.At? ==> index.row < |m.dataRows| && index.column < |m.dataRows[index.row]|
    ensures r.Some? <==> index.At? && role == DisplayRole
    ensures r.Some? ==> r.value == Display(m.dataRows[index.row][index.column])
  {
    if index.NoIndex? then None
    else if role == DisplayRole then Some(Display(m.dataRows[index.row][index.column]))
    else None
  }

  /** A cell reads empty exactly when it holds NULL or an empty value, and an
      integer cell reads back as that integer. */
  lemma DataShowsValue(m: TableModel, row: nat, column: nat)
    requires row < |m.dataRows| && column < |m.dataRows[row]|
    ensures var v := m.dataRows[row][column];
            var t := Data(m, At(row, column), DisplayRole).value;
            && (t == "" <==> v.Null? || v == Str("") || v == Num(""))
            && (v.Int? ==> ParseInt(t) == Some(v.i))
  {
  }

  /** `TableModel.headerData`: the column name across the top and the
      one-based row number down the side. */
  function HeaderData(m: TableModel, section: int, orientation: Orientation, role: Role): (r: Option<string>)
    requires role == DisplayRole && orientation == Horizontal ==> 0 <= section < |m.headers|
    ensures r.Some? <==> role == DisplayRole
    ensures r.Some? && orientation == Horizontal ==> r.value == m.headers[section]
    ensures r.Some? && orientation == Vertical ==> ParseInt(r.value) == Some(section + 1)
  {
    if role != DisplayRole then None
    else if orientation == Horizontal then Some(m.headers[section])
    else DecimalRoundTrip(section + 1); Some(Decimal(section + 1))
  }

  /** `{name: row[c] for c, name in enumerate(headers)}`; a later duplicate
      header overwrites an earlier one. */
  function RowDict(headers: seq<string>, values: seq<Value>): (d: map<string, Value>)
    requires |values| == |headers|
    ensures forall k :: k in d <==> k in headers
    decreases |headers|
  {
    if headers == [] then map[]
    else
      var n := |headers| - 1;
      assert forall i :: 0 <= i < n ==> headers[..n][i] == headers[i];
      RowDict(headers[..n], values[..n])[headers[n] := values[n]]
  }

  /** With distinct headers, each header maps to its own cell. */
  lemma {:induction false} RowDictAt(headers: seq<string>, values: seq<Value>, c: int)
    requires |values| == |headers| && 0 <= c < |headers|
    requires forall i, j :: 0 <= i < j < |headers| ==> headers[i] != headers[j]
    ensures RowDict(headers, values)[headers[c]] == values[c]
    decreases |headers|
  {
    var n := |headers| - 1;
    if c < n {
      assert headers[..n][c] == headers[c] && values[..n][c] == values[c];
      assert headers[c] != headers[n];
      RowDictAt(headers[..n], values[..n], c);
    }
  }

  // ---------- the generic form ----------

  /** One line edit of the form, under its column name. */
  datatype Input = Input(name: string, text: string)

  /** A line edit starts with `str(initial[name])` when the row has a
      non-NULL value there, and empty otherwise. */
  function Prefill(initial: map<string, Value>, name: string): (t: string)
    ensures name !in initial || initial[name].Null? ==> t == ""
    ensures name in initial && initial[name].Str? ==> t == initial[name].s
  {
    if name in initial && !initial[name].Null? then Text(initial[name]) else ""
  }

  /** The inputs `RecordDialog.__init__` creates: one per non-auto column, in
      schema order. */
  function InitialInputs(cols: seq<ColumnInfo>, initial: map<string, Value>): (r: seq<Input>)
    ensures |r| == |NonAuto(cols)|
    ensures forall i :: 0 <= i < |r| ==> r[i] == Input(NonAuto(cols)[i].name, Prefill(initial, NonAuto(cols)[i].name))
  {
    var shown := NonAuto(cols);
    seq(|shown|, i requires 0 <= i < |shown| => Input(shown[i].name, Prefill(initial, shown[i].name)))
  }

  /** Typing `text` into the line edit of column `name`. */
  function Typed(inputs: seq<Input>, name: string, text: string): (r: seq<Input>)
    ensures |r| == |inputs|
    ensures forall i :: 0 <= i < |inputs| ==> r[i].name == inputs[i].name
    ensures forall i :: 0 <= i < |inputs| ==> r[i].text == if inputs[i].name == name then text else inputs[i].text
  {
    seq(|inputs|, i requires 0 <= i < |inputs| =>
      if inputs[i].name == name then Input(name, text) else inputs[i])
  }

  /** The user's typing, in order: pairs of a column name and the new text. */
  function TypedAll(inputs: seq<Input>, typing: seq<(string, string)>): (r: seq<Input>)
    ensures |r| == |inputs| && forall i :: 0 <= i < |inputs| ==> r[i].name == inputs[i].name
    decreases |typing|
  {
    if typing == [] then inputs
    else
      var n := |typing| - 1;
      Typed(TypedAll(inputs, typing[..n]), typing[n].0, typing[n].1)
  }

  /** `None if txt == "" else txt` for `txt = text.strip()`. */
  function CellValue(text: string): Value
  {
    if Strip(text) == "" then Null else Str(Strip(text))
  }

  /** A line edit left blank, or holding only whitespace, sends NULL; any
      other text is sent stripped, never empty. */
  lemma BlankIsNull(text: string)
    ensures CellValue(text) == Null <==> AllSpace(text)
    ensures CellValue(text) != Null ==> CellValue(text) == Str(Strip(text)) && Strip(text) != ""
  {
    StripEmptyIff(text);
  }

  function InputNames(inputs: seq<Input>): (r: seq<string>)
    ensures |r| == |inputs| && forall i :: 0 <= i < |inputs| ==> r[i] == inputs[i].name
  {
    seq(|inputs|, i requires 0 <= i < |inputs| => inputs[i].name)
  }

  /** `get_values`: each input's stripped text, with blank meaning NULL. */
  function ValuesFrom(inputs: seq<Input>): map<string, Value>
    decreases |inputs|
  {
    if inputs == [] then map[]
    else
      var n := |inputs| - 1;
      ValuesFrom(inputs[..n])[inputs[n].name := CellValue(inputs[n].text)]
  }

  /** `get_values` has one entry per line edit's name. */
  lemma {:induction false} ValuesFromKeys(inputs: seq<Input>)
    ensures forall k :: k in ValuesFrom(inputs) <==> k in InputNames(inputs)
    decreases |inputs|
  {
    if inputs != [] {
      var n := |inputs| - 1;
      ValuesFromKeys(inputs[..n]);
      assert InputNames(inputs) == InputNames(inputs[..n]) + [inputs[n].name];
    }
  }

  /** With distinct names, each input gives its own cell value. */
  lemma {:induction false} ValuesFromAt(inputs: seq<Input>, i: int)
    requires 0 <= i < |inputs|
    requires forall a, b :: 0 <= a < b < |inputs| ==> inputs[a].name != inputs[b].name
    ensures inputs[i].name in ValuesFrom(inputs) && ValuesFrom(inputs)[inputs[i].name] == CellValue(inputs[i].text)
    decreases |inputs|
  {
    var n := |inputs| - 1;
    if i < n {
      assert inputs[..n][i] == inputs[i];
      assert inputs[i].name != inputs[n].name;
      ValuesFromAt(inputs[..n], i);
    }
  }

  class RecordDialog {
    const columns: seq<ColumnInfo>
    var inputs: seq<Input>

    /** `RecordDialog(title, columns, initial)`. */
    constructor (columns: seq<ColumnInfo>, initial: map<string, Value>)
      ensures this.columns == columns
      ensures inputs == InitialInputs(columns, initial)
    {
      this.columns := columns;
      var acc: seq<Input> := [];
      for i := 0 to |columns|
        invariant acc == InitialInputs(columns[..i], initial)
      {
        assert columns[..i + 1][..i] == columns[..i];
        var col := columns[i];
        if !col.isAuto {
          acc := acc + [Input(col.name, if col.name in initial && !initial[col.name].Null? then Text(initial[col.name]) else "")];
        }
      }
      assert columns[..|columns|] == columns;
      inputs := acc;
    }

    /** `exec()`: the user's typing until the dialog closes. */
    method Exec(typing: seq<(string, string)>)
      modifies this
      ensures inputs == TypedAll(old(inputs), typing)
    {
      for k := 0 to |typing|
        invariant inputs == TypedAll(old(inputs), typing[..k])
      {
        assert typing[..k + 1][..k] == typing[..k];
        inputs := Typed(inputs, typing[k].0, typing[k].1);
      }
      assert typing[..|typing|] == typing;
    }

    /** `get_values`. */
    method GetValues() returns (vals: map<string, Value>)
      ensures vals == ValuesFrom(inputs)
    {
      var ins := inputs;
      vals := map[];
      for i := 0 to |ins|
        invariant vals == ValuesFrom(ins[..i])
      {
        ghost var upto := ins[..i + 1];
        assert upto[..i] == ins[..i] && upto[i] == ins[i];
        var txt := Strip(ins[i].text);
        assert CellValue(ins[i].text) == if txt == "" then Null else Str(txt);
        vals := vals[ins[i].name := if txt == "" then Null else Str(txt)];
        assert vals == ValuesFrom(upto);
      }
      assert ins[..|ins|] == ins;
    }
  }

  // ---------- statements ----------

  /** `vals.get(name)`: a missing key is None. */
  function Param(vals: map<string, Value>, name: string): (v: Value)
    ensures name in vals ==> v == vals[name]
    ensures name !in vals ==> v.Null?
  {
    if name in vals then vals[name] else Null
  }

  /** The parameters for `cols`, one `vals.get` per column. */
  function ParamsOf(cols: seq<ColumnInfo>, vals: map<string, Value>): (ps: seq<Value>)
    ensures |ps| == |cols| && forall i :: 0 <= i < |cols| ==> ps[i] == Param(vals, cols[i].name)
  {
    seq(|cols|, i requires 0 <= i < |cols| => Param(vals, cols[i].name))
  }

  /** What `get_values` returns once the user has typed `typing` into a
      dialog opened on `initial`. */
  function FormValues(cols: seq<ColumnInfo>, initial: map<string, Value>, typing: seq<(string, string)>): map<string, Value>
  {
    ValuesFrom(TypedAll(InitialInputs(cols, initial), typing))
  }

  /** The table name and every column name are free of `%`, the one character
      that could turn spliced identifier text into a placeholder. */
  predicate Identifiers(table: string, cols: seq<ColumnInfo>)
  {
    PercentFree(table) && forall i :: 0 <= i < |cols| ==> PercentFree(cols[i].name)
  }

  /** The `add_row` statement (without a closing `;`). */
  function AddStatement(table: string, cols: seq<ColumnInfo>, vals: map<string, Value>): Statement
  {
    var shown := NonAuto(cols);
    Statement(InsertInto(table, ColumnNames(shown)), ParamsOf(shown, vals))
  }

  /** `add_row`: a cancelled dialog issues nothing. */
  function AddOutcome(table: string, cols: seq<ColumnInfo>, typing: seq<(string, string)>, accepted: bool): Option<Statement>
  {
    if !accepted then None else Some(AddStatement(table, cols, FormValues(cols, map[], typing)))
  }

  /** The `edit_row` statement: the assigned columns, then the pk value of
      the selected row. */
  function EditStatement(table: string, cols: seq<ColumnInfo>, pk: string, row: map<string, Value>,
                         vals: map<string, Value>): Statement
  {
    var setCols := Assigned(cols);
    Statement(UpdateSet(table, ColumnNames(setCols), pk), ParamsOf(setCols, vals) + [Param(row, pk)])
  }

  /** `_current_row_dict` for a view index inside the model. */
  function SelectedRow(m: TableModel, idx: ModelIndex): (d: Option<map<string, Value>>)
    requires m.Shaped() && (idx.At? ==> idx.row < |m.dataRows|)
    ensures d.Some? <==> idx.At?
    ensures d.Some? ==> forall k :: k in d.value <==> k in m.headers
  {
    if idx.NoIndex? then None else Some(RowDict(m.headers, m.dataRows[idx.row]))
  }

  /** `edit_row`: no pk, no selection, an empty row or a cancelled dialog
      issue nothing. */
  function EditOutcome(table: string, cols: seq<ColumnInfo>, m: TableModel, idx: ModelIndex,
                       typing: seq<(string, string)>, accepted: bool): Option<Statement>
    requires m.Shaped() && (idx.At? ==> idx.row < |m.dataRows|)
  {
    var pk := PkCol(cols);
    var sel := SelectedRow(m, idx);
    if pk.None? || sel.None? || sel.value == map[] || !accepted then None
    else Some(EditStatement(table, cols, pk.value.name, sel.value, FormValues(cols, sel.value, typing)))
  }

  /** `delete_row`: the same guards, then the confirmation. */
  function DeleteOutcome(table: string, cols: seq<ColumnInfo>, m: TableModel, idx: ModelIndex, confirmed: bool): Option<Statement>
    requires m.Shaped() && (idx.At? ==> idx.row < |m.dataRows|)
  {
    var pk := PkCol(cols);
    var sel := SelectedRow(m, idx);
    if pk.None? || sel.None? || sel.value == map[] || !confirmed then None
    else Some(Statement(DeleteFrom(table, pk.value.name), [Param(sel.value, pk.value.name)]))
  }

  /** The column loop of `add_row`: for every non-auto column its quoted
      name, a placeholder and `vals.get(name)`. */
  method InsertParts(columns: seq<ColumnInfo>, vals: map<string, Value>)
      returns (cols: seq<string>, ph: seq<string>, params: seq<Value>)
    ensures Join(", ", cols) == ColumnList(ColumnNames(NonAuto(columns)))
    ensures Join(", ", ph) == PlaceholderList(|NonAuto(columns)|)
    ensures params == ParamsOf(NonAuto(columns), vals)
  {
    cols, ph, params := [], [], [];
    ghost var shown: seq<ColumnInfo> := [];
    for i := 0 to |columns|
      invariant shown == NonAuto(columns[..i])
      invariant |cols| == |ph| == |params| == |shown|
      invariant forall k :: 0 <= k < |shown| ==>
                  cols[k] == Quote(shown[k].name) && ph[k] == Placeholder && params[k] == Param(vals, shown[k].name)
    {
      assert columns[..i + 1][..i] == columns[..i];
      var col := columns[i];
      if !col.isAuto {
        cols := cols + [Quote(col.name)];
        ph := ph + [Placeholder];
        params := params + [Param(vals, col.name)];
        shown := shown + [col];
      }
    }
    assert columns[..|columns|] == columns;
    ghost var names := ColumnNames(shown);
    assert cols == seq(|names|, i requires 0 <= i < |names| => Quote(names[i]));
    assert ph == seq(|names|, i => Placeholder);
    assert params == ParamsOf(shown, vals);
  }

  /** The column loop of `edit_row`: for every column that is neither the pk
      nor auto-increment its assignment and `vals.get(name)`. */
  method SetParts(columns: seq<ColumnInfo>, vals: map<string, Value>)
      returns (setParts: seq<string>, params: seq<Value>)
    ensures Join(", ", setParts) == Assignments(ColumnNames(Assigned(columns)))
    ensures params == ParamsOf(Assigned(columns), vals)
  {
    setParts, params := [], [];
    ghost var setCols: seq<ColumnInfo> := [];
    for i := 0 to |columns|
      invariant setCols == Assigned(columns[..i])
      invariant |setParts| == |params| == |setCols|
      invariant forall k :: 0 <= k < |setCols| ==>
                  setParts[k] == Quote(setCols[k].name) + "=%s" && params[k] == Param(vals, setCols[k].name)
    {
      assert columns[..i + 1][..i] == columns[..i];
      var col := columns[i];
      if !(col.isPk || col.isAuto) {
        setParts := setParts + [Quote(col.name) + "=%s"];
        params := params + [Param(vals, col.name)];
        setCols := setCols + [col];
      }
    }
    assert columns[..|columns|] == columns;
    ghost var names := ColumnNames(setCols);
    assert setParts == seq(|names|, i requires 0 <= i < |names| => Quote(names[i]) + "=%s");
    assert params == ParamsOf(setCols, vals);
  }

  /** The f-string of `edit_row` is the shared UPDATE text. */
  lemma UpdateText(table: string, setParts: seq<string>, names: seq<string>, pk: string)
    requires Join(", ", setParts) == Assignments(names)
    ensures "UPDATE " + Quote(table) + " SET " + Join(", ", setParts) + " WHERE " + Quote(pk) + "=%s"
            == UpdateSet(table, names, pk)
  {
    assert "=%s" == "=" + Placeholder;
  }

  class Crud {
    const table: string
    const title: string
    const columns: seq<ColumnInfo>
    const pkCol: Option<ColumnInfo>
    var model: TableModel

    ghost predicate Valid()
      reads this
    {
      model.Shaped() && pkCol == PkCol(columns)
    }

    /** `CrudWidget(table, title)`: the catalog rows of the table and its
        first listing are the results of the two queries. */
    constructor (table: string, title: string, catalog: seq<CatalogRow>,
                 headers: seq<string>, data: seq<seq<Value>>)
      requires TableModel(headers, data).Shaped()
      ensures Valid()
      ensures this.table == table && this.title == title
      ensures |columns| == |catalog| && forall i :: 0 <= i < |catalog| ==> columns[i] == ColumnOf(catalog[i])
      ensures model == TableModel(headers, data)
    {
      var cols := FetchColumns(catalog);
      this.table, this.title := table, title;
      columns := cols;
      pkCol := PkCol(cols);
      model := TableModel(headers, data);
    }

    /** `refresh`: a new model over the rows of `SELECT *`, given as the
        header names and the rows; None when that query raised, in which
        case the exception leaves the slot before the model is replaced. */
    method Refresh(listing: Option<(seq<string>, seq<seq<Value>>)>)
      requires Valid()
      requires listing.Some? ==> TableModel(listing.value.0, listing.value.1).Shaped()
      modifies this
      ensures Valid()
      ensures listing.Some? ==> model == TableModel(listing.value.0, listing.value.1)
      ensures listing.None? ==> model == old(model)
    {
      if listing.Some? {
        model := TableModel(listing.value.0, listing.value.1);
      }
    }

    /** `_current_row_dict`. */
    method CurrentRowDict(idx: ModelIndex) returns (d: Option<map<string, Value>>)
      requires Valid() && (idx.At? ==> idx.row < |model.dataRows|)
      ensures d == SelectedRow(model, idx)
    {
      if idx.NoIndex? {
        return None;
      }
      var values := model.dataRows[idx.row];
      var m := map[];
      for c := 0 to |model.headers|
        invariant m == RowDict(model.headers[..c], values[..c])
      {
        assert model.headers[..c + 1][..c] == model.headers[..c];
        assert values[..c + 1][..c] == values[..c];
        m := m[model.headers[c] := values[c]];
      }
      assert model.headers[..|model.headers|] == model.headers;
      assert values[..|values|] == values;
      d := Some(m);
    }

    /** `add_row`: the user types `typing` and then accepts or cancels. */
    method AddRow(typing: seq<(string, string)>, accepted: bool) returns (st: Option<Statement>)
      ensures st == AddOutcome(table, columns, typing, accepted)
    {
      var dlg := new RecordDialog(columns, map[]);
      dlg.Exec(typing);
      if !accepted {
        return None;
      }
      var vals := dlg.GetValues();
      var cols, ph, params := InsertParts(columns, vals);
      var q := "INSERT INTO " + Quote(table) + " (" + Join(", ", cols) + ") VALUES (" + Join(", ", ph) + ")";
      st := Some(Statement(q, params));
    }

    /** `edit_row` on the view's current index. */
    method EditRow(idx: ModelIndex, typing: seq<(string, string)>, accepted: bool) returns (st: Option<Statement>)
      requires Valid() && (idx.At? ==> idx.row < |model.dataRows|)
      ensures st == EditOutcome(table, columns, model, idx, typing, accepted)
    {
      if pkCol.None? {
        return None;
      }
      var row := CurrentRowDict(idx);
      if row.None? || row.value == map[] {
        return None;
      }
      var dlg := new RecordDialog(columns, row.value);
      dlg.Exec(typing);
      if !accepted {
        return None;
      }
      var vals := dlg.GetValues();
      var setParts, params := SetParts(columns, vals);
      var pkVal := Param(row.value, pkCol.value.name);
      params := params + [pkVal];
      var q := "UPDATE " + Quote(table) + " SET " + Join(", ", setParts) + " WHERE " + Quote(pkCol.value.name) + "=%s";
      UpdateText(table, setParts, ColumnNames(Assigned(columns)), pkCol.value.name);
      assert row == SelectedRow(model, idx);
      assert vals == FormValues(columns, row.value, typing);
      st := Some(Statement(q, params));
    }

    /** `delete_row` on the view's current index; `confirmed` is the answer
        to the confirmation question. */
    method DeleteRow(idx: ModelIndex, confirmed: bool) returns (st: Option<Statement>)
      requires Valid() && (idx.At? ==> idx.row < |model.dataRows|)
      ensures st == DeleteOutcome(table, columns, model, idx, confirmed)
    {
      if pkCol.None? {
        return None;
      }
      var row := CurrentRowDict(idx);
      if row.None? || row.value == map[] {
        return None;
      }
      var pkVal := Param(row.value, pkCol.value.name);
      if !confirmed {
        return None;
      }
      var q := "DELETE FROM " + Quote(table) + " WHERE " + Quote(pkCol.value.name) + "=%s";
      assert "=%s" == "=" + Placeholder;
      assert q == DeleteFrom(table, pkCol.value.name);
      assert row == SelectedRow(model, idx);
      st := Some(Statement(q, [pkVal]));
    }
  }

  // ---------- what the statements do ----------

  /** Distinct column names stay distinct among the form's inputs. */
  lemma {:induction false} NonAutoDistinct(cols: seq<ColumnInfo>)
    requires DistinctColumns(cols)
    ensures DistinctColumns(NonAuto(cols))
    decreases |cols|
  {
    if cols != [] {
      var n := |cols| - 1;
      var init, c := cols[..n], cols[n];
      assert forall i :: 0 <= i < n ==> init[i] == cols[i];
      NonAutoDistinct(init);
      var r := NonAuto(init);
      forall k | 0 <= k < |r| ensures r[k].name != c.name {
        var p :| 0 <= p < n && init[p] == r[k];
        assert cols[p] == r[k];
      }
    }
  }

  /** The inputs of a dialog carry the non-auto column names in schema order. */
  lemma FormInputs(cols: seq<ColumnInfo>, initial: map<string, Value>, typing: seq<(string, string)>)
    ensures var inputs := TypedAll(InitialInputs(cols, initial), typing);
            |inputs| == |NonAuto(cols)| && forall i :: 0 <= i < |inputs| ==> inputs[i].name == NonAuto(cols)[i].name
  {
  }

  /** Each non-auto column's value in `get_values` is what its line edit
      finally holds, NULL when blank. */
  lemma FormValueAt(cols: seq<ColumnInfo>, initial: map<string, Value>, typing: seq<(string, string)>, i: int)
    requires DistinctColumns(cols) && 0 <= i < |NonAuto(cols)|
    ensures var inputs := TypedAll(InitialInputs(cols, initial), typing);
            Param(FormValues(cols, initial, typing), NonAuto(cols)[i].name) == CellValue(inputs[i].text)
  {
    var inputs := TypedAll(InitialInputs(cols, initial), typing);
    FormInputs(cols, initial, typing);
    NonAutoDistinct(cols);
    assert forall a, b :: 0 <= a < b < |inputs| ==> inputs[a].name != inputs[b].name by {
      forall a, b | 0 <= a < b < |inputs| ensures inputs[a].name != inputs[b].name {
        assert NonAuto(cols)[a].name != NonAuto(cols)[b].name;
      }
    }
    ValuesFromAt(inputs, i);
  }

  /** An accepted add inserts every non-auto column, each with what the user
      left in its line edit (NULL when blank), and no auto-increment column. */
  lemma AddInsertsForm(table: string, cols: seq<ColumnInfo>, typing: seq<(string, string)>)
    requires DistinctColumns(cols)
    ensures AddOutcome(table, cols, typing, true).Some?
    ensures var st := AddOutcome(table, cols, typing, true).value;
            var inputs := TypedAll(InitialInputs(cols, map[]), typing);
            && |st.params| == |inputs|
            && forall i :: 0 <= i < |inputs| ==>
                 inputs[i].name == NonAuto(cols)[i].name && !NonAuto(cols)[i].isAuto
                 && st.params[i] == CellValue(inputs[i].text)
  {
    FormInputs(cols, map[], typing);
    forall i | 0 <= i < |NonAuto(cols)|
      ensures Param(FormValues(cols, map[], typing), NonAuto(cols)[i].name)
              == CellValue(TypedAll(InitialInputs(cols, map[]), typing)[i].text)
    {
      FormValueAt(cols, map[], typing, i);
    }
  }

  /** A freshly opened add dialog is blank: accepting it untouched inserts
      NULL everywhere. */
  lemma AddUntouchedIsNull(table: string, cols: seq<ColumnInfo>)
    requires DistinctColumns(cols)
    ensures forall v :: v in AddOutcome(table, cols, [], true).value.params ==> v.Null?
  {
    AddInsertsForm(table, cols, []);
    var st := AddOutcome(table, cols, [], true).value;
    forall i | 0 <= i < |st.params| ensures st.params[i].Null? {
      assert TypedAll(InitialInputs(cols, map[]), [])[i].text == "";
      assert Strip("") == "";
    }
  }

  /** An accepted add binds one parameter per placeholder. */
  lemma AddPlaceholders(table: string, cols: seq<ColumnInfo>, typing: seq<(string, string)>)
    requires Identifiers(table, cols)
    ensures var st := AddOutcome(table, cols, typing, true).value;
            Occurrences(st.text) == |st.params| && EndsSafe(st.text)
  {
    var names := ColumnNames(NonAuto(cols));
    assert AllPercentFree(names) by {
      forall k | 0 <= k < |names| ensures PercentFree(names[k]) {
        var p :| 0 <= p < |cols| && cols[p] == NonAuto(cols)[k];
      }
    }
    InsertIntoCount(table, names);
  }

  /** `edit_row` issues an UPDATE exactly when the table has a pk, a row is
      selected, the model has at least one column and the dialog is
      accepted. */
  lemma EditGuard(table: string, cols: seq<ColumnInfo>, m: TableModel, idx: ModelIndex,
                  typing: seq<(string, string)>, accepted: bool)
    requires m.Shaped() && (idx.At? ==> idx.row < |m.dataRows|)
    ensures EditOutcome(table, cols, m, idx, typing, accepted).Some?
            <==> PkCol(cols).Some? && idx.At? && m.headers != [] && accepted
  {
    if idx.At? && m.headers != [] {
      assert m.headers[0] in SelectedRow(m, idx).value;
    }
  }

  /** `delete_row` issues a DELETE exactly when the table has a pk, a row is
      selected, the model has at least one column and the user confirms. */
  lemma DeleteGuard(table: string, cols: seq<ColumnInfo>, m: TableModel, idx: ModelIndex, confirmed: bool)
    requires m.Shaped() && (idx.At? ==> idx.row < |m.dataRows|)
    ensures DeleteOutcome(table, cols, m, idx, confirmed).Some?
            <==> PkCol(cols).Some? && idx.At? && m.headers != [] && confirmed
  {
    if idx.At? && m.headers != [] {
      assert m.headers[0] in SelectedRow(m, idx).value;
    }
  }

  /** Headers with distinct names, as `SELECT *` returns them. */
  predicate DistinctHeaders(m: TableModel)
  {
    forall i, j :: 0 <= i < j < |m.headers| ==> m.headers[i] != m.headers[j]
  }

  /** The UPDATE's last parameter, which its WHERE compares with the pk, is
      the selected row's cell in the pk column. */
  lemma EditTargetsSelectedRow(table: string, cols: seq<ColumnInfo>, m: TableModel, idx: ModelIndex,
                               typing: seq<(string, string)>, c: int)
    requires m.Shaped() && idx.At? && idx.row < |m.dataRows| && DistinctHeaders(m)
    requires PkCol(cols).Some? && 0 <= c < |m.headers| && m.headers[c] == PkCol(cols).value.name
    ensures EditOutcome(table, cols, m, idx, typing, true).Some?
    ensures var st := EditOutcome(table, cols, m, idx, typing, true).value;
            |st.params| >= 1 && st.params[|st.params| - 1] == m.dataRows[idx.row][c]
  {
    EditGuard(table, cols, m, idx, typing, true);
    RowDictAt(m.headers, m.dataRows[idx.row], c);
  }

  /** The DELETE's one parameter is the selected row's cell in the pk column. */
  lemma DeleteTargetsSelectedRow(table: string, cols: seq<ColumnInfo>, m: TableModel, idx: ModelIndex, c: int)
    requires m.Shaped() && idx.At? && idx.row < |m.dataRows| && DistinctHeaders(m)
    requires PkCol(cols).Some? && 0 <= c < |m.headers| && m.headers[c] == PkCol(cols).value.name
    ensures DeleteOutcome(table, cols, m, idx, true).Some?
    ensures DeleteOutcome(table, cols, m, idx, true).value.params == [m.dataRows[idx.row][c]]
  {
    DeleteGuard(table, cols, m, idx, true);
    RowDictAt(m.headers, m.dataRows[idx.row], c);
  }

  /** An UPDATE never assigns the pk or an auto-increment column, and every
      column it assigns gets what the user left in that column's line edit
      (NULL when blank). */
  lemma EditAssignsForm(table: string, cols: seq<ColumnInfo>, m: TableModel, idx: ModelIndex,
                        typing: seq<(string, string)>)
    requires m.Shaped() && (idx.At? ==> idx.row < |m.dataRows|) && DistinctColumns(cols)
    requires EditOutcome(table, cols, m, idx, typing, true).Some?
    ensures PkCol(cols).value.name !in ColumnNames(Assigned(cols))
    ensures var st := EditOutcome(table, cols, m, idx, typing, true).value;
            var inputs := TypedAll(InitialInputs(cols, SelectedRow(m, idx).value), typing);
            && |st.params| == |Assigned(cols)| + 1
            && forall i :: 0 <= i < |Assigned(cols)| ==>
                 exists j :: 0 <= j < |inputs| && inputs[j].name == Assigned(cols)[i].name
                             && st.params[i] == CellValue(inputs[j].text)
  {
    PkNeverAssigned(cols);
    var row := SelectedRow(m, idx).value;
    var inputs := TypedAll(InitialInputs(cols, row), typing);
    var st := EditOutcome(table, cols, m, idx, typing, true).value;
    FormInputs(cols, row, typing);
    forall i | 0 <= i < |Assigned(cols)|
      ensures exists j :: 0 <= j < |inputs| && inputs[j].name == Assigned(cols)[i].name
                          && st.params[i] == CellValue(inputs[j].text)
    {
      var a := Assigned(cols)[i];
      var p :| 0 <= p < |cols| && cols[p] == a;
      var j :| 0 <= j < |NonAuto(cols)| && NonAuto(cols)[j] == a;
      FormValueAt(cols, row, typing, j);
      assert inputs[j].name == a.name;
    }
  }

  /** An UPDATE binds one parameter per placeholder. */
  lemma EditPlaceholders(table: string, cols: seq<ColumnInfo>, m: TableModel, idx: ModelIndex,
                         typing: seq<(string, string)>)
    requires m.Shaped() && (idx.At? ==> idx.row < |m.dataRows|) && Identifiers(table, cols)
    requires EditOutcome(table, cols, m, idx, typing, true).Some?
    ensures var st := EditOutcome(table, cols, m, idx, typing, true).value;
            Occurrences(st.text) == |st.params| && EndsSafe(st.text)
  {
    var names := ColumnNames(Assigned(cols));
    assert AllPercentFree(names) by {
      forall k | 0 <= k < |names| ensures PercentFree(names[k]) {
        var p :| 0 <= p < |cols| && cols[p] == Assigned(cols)[k];
      }
    }
    var pk := PkCol(cols).value;
    var p :| 0 <= p < |cols| && cols[p] == pk;
    UpdateSetCount(table, names, pk.name);
  }

  /** A DELETE binds its one parameter to its one placeholder. */
  lemma DeletePlaceholders(table: string, cols: seq<ColumnInfo>, m: TableModel, idx: ModelIndex, confirmed: bool)
    requires m.Shaped() && (idx.At? ==> idx.row < |m.dataRows|) && Identifiers(table, cols)
    requires DeleteOutcome(table, cols, m, idx, confirmed).Some?
    ensures var st := DeleteOutcome(table, cols, m, idx, confirmed).value;
            Occurrences(st.text) == |st.params| == 1 && EndsSafe(st.text)
  {
    var pk := PkCol(cols).value;
    var p :| 0 <= p < |cols| && cols[p] == pk;
    DeleteFromCount(table, pk.name);
  }

  /** The edit dialog opens on the selected row: each line edit shows that
      row's cell for its column, and stays empty for a NULL cell. */
  lemma EditPrefillsRow(m: TableModel, idx: ModelIndex, cols: seq<ColumnInfo>, i: int, c: int)
    requires m.Shaped() && idx.At? && idx.row < |m.dataRows| && DistinctHeaders(m)
    requires 0 <= i < |NonAuto(cols)| && 0 <= c < |m.headers| && m.headers[c] == NonAuto(cols)[i].name
    ensures var text := InitialInputs(cols, SelectedRow(m, idx).value)[i].text;
            var v := m.dataRows[idx.row][c];
            && (v.Null? ==> text == "")
            && (!v.Null? ==> text == Text(v))
  {
    RowDictAt(m.headers, m.dataRows[idx.row], c);
  }
}
