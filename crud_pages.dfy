/** The hand-configured CRUD pages: a record form driven by field
    descriptors, the page that lists a table through a view query, and the
    INSERT / UPDATE / DELETE / select-by-pk statements its buttons issue. */
module CrudPages {
  import opened Values
  import opened Sql
  import opened Grid

  // ---------- foreign-key options ----------

  /** One entry of a foreign-key drop-down: the referenced id and its label. */
  datatype FkOption = FkOption(id: int, caption: string)

  /** A row of the users option query: `user_id, nama, no_hp`. */
  datatype UserRow = UserRow(userId: int, nama: Value, noHp: Value)

  /** A row of the drivers option query: `driver_id, nama, no_hp, plat_nomor`. */
  datatype DriverRow = DriverRow(driverId: int, nama: Value, noHp: Value, platNomor: Value)

  /** A row of the orders option query:
      `pesanan_id, pelanggan, titik_awal, titik_tujuan, biaya`. */
  datatype OrderRow = OrderRow(pesananId: int, pelanggan: Value, titikAwal: Value,
                               titikTujuan: Value, biaya: Value)

  /** Every option label opens with the id it stands for and `" - "`. */
  function OptionLabel(id: int, details: string): string
  {
    Decimal(id) + " - " + details
  }

  lemma DecimalHasNoSpace(i: int)
    ensures forall k :: 0 <= k < |Decimal(i)| ==> Decimal(i)[k] != ' '
  {
    var d := NatDecimal(if i < 0 then -i else i);
    assert AllDigits(d);
    if i < 0 {
      assert Decimal(i) == "-" + d;
      assert forall k :: 1 <= k < |Decimal(i)| ==> Decimal(i)[k] == d[k - 1];
    }
  }

  /** The label of an option determines its id: the id is the text before
      the first space. */
  lemma OptionLabelInjective(a: int, detailsA: string, b: int, detailsB: string)
    requires OptionLabel(a, detailsA) == OptionLabel(b, detailsB)
    ensures a == b
  {
    var da, db := Decimal(a), Decimal(b);
    var l := OptionLabel(a, detailsA);
    DecimalHasNoSpace(a);
    DecimalHasNoSpace(b);
    assert l[|da|] == ' ';
    assert OptionLabel(b, detailsB)[|db|] == ' ';
    assert |da| == |db|;
    assert da == l[..|da|] == db;
    DecimalRoundTrip(a);
    DecimalRoundTrip(b);
  }

  /** `load_users_options`: one option per user row, in query order, labelled
      `id - nama (no_hp)`. */
  function LoadUsersOptions(rows: seq<UserRow>): (r: seq<FkOption>)
    ensures |r| == |rows|
    ensures forall i :: 0 <= i < |rows| ==> r[i].id == rows[i].userId
    ensures forall i :: 0 <= i < |rows| ==>
              r[i].caption == OptionLabel(rows[i].userId, Text(rows[i].nama) + " (" + Text(rows[i].noHp) + ")")
  {
    seq(|rows|, i requires 0 <= i < |rows| =>
      FkOption(rows[i].userId, OptionLabel(rows[i].userId, Text(rows[i].nama) + " (" + Text(rows[i].noHp) + ")")))
  }

  /** `load_drivers_options`: labelled `id - nama (no_hp) | plat_nomor`. */
  function LoadDriversOptions(rows: seq<DriverRow>): (r: seq<FkOption>)
    ensures |r| == |rows|
    ensures forall i :: 0 <= i < |rows| ==> r[i].id == rows[i].driverId
    ensures forall i :: 0 <= i < |rows| ==>
              r[i].caption == OptionLabel(rows[i].driverId,
                Text(rows[i].nama) + " (" + Text(rows[i].noHp) + ") | " + Text(rows[i].platNomor))
  {
    seq(|rows|, i requires 0 <= i < |rows| =>
      FkOption(rows[i].driverId, OptionLabel(rows[i].driverId,
        Text(rows[i].nama) + " (" + Text(rows[i].noHp) + ") | " + Text(rows[i].platNomor))))
  }

  /** `load_orders_options`: labelled
      `id - pelanggan | titik_awal -> titik_tujuan | Rp biaya`. */
  function LoadOrdersOptions(rows: seq<OrderRow>): (r: seq<FkOption>)
    ensures |r| == |rows|
    ensures forall i :: 0 <= i < |rows| ==> r[i].id == rows[i].pesananId
    ensures forall i :: 0 <= i < |rows| ==>
              r[i].caption == OptionLabel(rows[i].pesananId,
                Text(rows[i].pelanggan) + " | " + Text(rows[i].titikAwal) + " -> "
                + Text(rows[i].titikTujuan) + " | Rp" + Text(rows[i].biaya))
  {
    seq(|rows|, i requires 0 <= i < |rows| =>
      FkOption(rows[i].pesananId, OptionLabel(rows[i].pesananId,
        Text(rows[i].pelanggan) + " | " + Text(rows[i].titikAwal) + " -> "
        + Text(rows[i].titikTujuan) + " | Rp" + Text(rows[i].biaya))))
  }

  /** Two options of one drop-down with the same label have the same id. */
  lemma SameLabelSameId(options: seq<FkOption>, details: seq<string>, i: int, j: int)
    requires |details| == |options|
    requires forall k :: 0 <= k < |options| ==> options[k].caption == OptionLabel(options[k].id, details[k])
    requires 0 <= i < |options| && 0 <= j < |options| && options[i].caption == options[j].caption
    ensures options[i].id == options[j].id
  {
    OptionLabelInjective(options[i].id, details[i], options[j].id, details[j]);
  }

  // ---------- field descriptors ----------

  /** The `type` of a field descriptor, with its `options` where it has them. */
  datatype FieldKind =
    | TextField
    | PasswordField
    | FloatField
    | EnumField(options: seq<string>)
    | FkField(choices: seq<FkOption>)

  datatype Field = Field(name: string, caption: string, kind: FieldKind)

  function Names(fields: seq<Field>): (r: seq<string>)
    ensures |r| == |fields| && forall i :: 0 <= i < |fields| ==> r[i] == fields[i].name
  {
    seq(|fields|, i requires 0 <= i < |fields| => fields[i].name)
  }

  lemma NamesLast(fields: seq<Field>)
    requires fields != []
    ensures Names(fields) == Names(fields[..|fields| - 1]) + [fields[|fields| - 1].name]
  {
    var a, b := Names(fields), Names(fields[..|fields| - 1]) + [fields[|fields| - 1].name];
    assert |a| == |b|;
    forall i | 0 <= i < |a| ensures a[i] == b[i] {
      if i < |fields| - 1 {
        assert b[i] == Names(fields[..|fields| - 1])[i];
      }
    }
  }

  predicate DistinctNames(fields: seq<Field>)
  {
    forall i, j :: 0 <= i < j < |fields| ==> fields[i].name != fields[j].name
  }

  /** Every foreign-key field of the form has at least one choice. */
  predicate FkReady(fields: seq<Field>)
  {
    forall i :: 0 <= i < |fields| ==> fields[i].kind.FkField? ==> fields[i].kind.choices != []
  }

  // ---------- form widgets ----------

  /** A drop-down entry: its text and its user data (None for an enum entry,
      the id for a foreign-key entry). */
  datatype ComboItem = ComboItem(text: string, data: Value)

  /** The input widget of one field. A spin box holds its number as an opaque
      value; a combo box holds its entries and the current index, -1 when it
      has none. */
  datatype Widget =
    | LineEdit(text: string, masked: bool)
    | SpinBox(number: Value)
    | ComboBox(items: seq<ComboItem>, current: int)

  /** A combo box's current index is an entry, or -1 exactly when it is empty. */
  predicate ComboOk(w: Widget)
    requires w.ComboBox?
  {
    (w.items == [] ==> w.current == -1) && (w.items != [] ==> 0 <= w.current < |w.items|)
  }

  function CurrentText(w: Widget): string
    requires w.ComboBox?
  {
    if 0 <= w.current < |w.items| then w.items[w.current].text else ""
  }

  function CurrentData(w: Widget): Value
    requires w.ComboBox?
  {
    if 0 <= w.current < |w.items| then w.items[w.current].data else Null
  }

  function EnumItems(options: seq<string>): (r: seq<ComboItem>)
    ensures |r| == |options| && forall i :: 0 <= i < |options| ==> r[i] == ComboItem(options[i], Null)
  {
    seq(|options|, i requires 0 <= i < |options| => ComboItem(options[i], Null))
  }

  function FkItems(choices: seq<FkOption>): (r: seq<ComboItem>)
    ensures |r| == |choices|
    ensures forall i :: 0 <= i < |choices| ==> r[i] == ComboItem(choices[i].caption, Int(choices[i].id))
  {
    seq(|choices|, i requires 0 <= i < |choices| => ComboItem(choices[i].caption, Int(choices[i].id)))
  }

  /** The widget fits the field's kind: a line edit (masked for a password),
      a spin box, or a combo box holding the field's options. */
  predicate Shaped(kind: FieldKind, w: Widget)
  {
    match kind
    case TextField => w.LineEdit? && !w.masked
    case PasswordField => w.LineEdit? && w.masked
    case FloatField => w.SpinBox?
    case EnumField(options) => w.ComboBox? && w.items == EnumItems(options) && ComboOk(w)
    case FkField(choices) => w.ComboBox? && w.items == FkItems(choices) && ComboOk(w)
  }

  /** Every field has its widget under its name, and the widget fits it. */
  predicate Fits(fields: seq<Field>, widgets: map<string, Widget>)
  {
    forall i :: 0 <= i < |fields| ==> fields[i].name in widgets && Shaped(fields[i].kind, widgets[fields[i].name])
  }

  // ---------- initial selection ----------

  /** The first index of `s` in `options`, -1 when it does not occur. */
  function FirstIndex(options: seq<string>, s: string): (r: int)
    ensures -1 <= r < |options|
    ensures r == -1 <==> s !in options
    ensures r >= 0 ==> options[r] == s && forall j :: 0 <= j < r ==> options[j] != s
    decreases |options|
  {
    if options == [] then -1
    else if options[0] == s then 0
    else
      var k := FirstIndex(options[1..], s);
      assert forall j :: 1 <= j < |options| ==> options[j] == options[1..][j - 1];
      if k < 0 then -1 else k + 1
  }

  /** The first index whose option has id `n`, -1 when none has. */
  function FirstIdIndex(choices: seq<FkOption>, n: int): (r: int)
    ensures -1 <= r < |choices|
    ensures r == -1 <==> forall j :: 0 <= j < |choices| ==> choices[j].id != n
    ensures r >= 0 ==> choices[r].id == n && forall j :: 0 <= j < r ==> choices[j].id != n
    decreases |choices|
  {
    if choices == [] then -1
    else if choices[0].id == n then 0
    else
      var k := FirstIdIndex(choices[1..], n);
      assert forall j :: 1 <= j < |choices| ==> choices[j] == choices[1..][j - 1];
      if k < 0 then -1 else k + 1
  }

  /** `x or 0` falls back on 0 for these values. */
  predicate Falsy(v: Value)
  {
    v == Null || v == Str("") || v == Int(0)
  }

  /** `initial.get(name, 0) or 0`. */
  function SpinStart(v: Option<Value>): Value
  {
    if v.None? || Falsy(v.value) then Int(0) else v.value
  }

  /** An enum field starts on its initial value when that value is one of the
      options (the first entry with that text), otherwise on the first entry. */
  function EnumStart(options: seq<string>, v: Option<Value>): (r: int)
    ensures options == [] ==> r == -1
    ensures (v.Some? && v.value.Str? && v.value.s in options) ==>
              0 <= r < |options| && options[r] == v.value.s && forall j :: 0 <= j < r ==> options[j] != v.value.s
    ensures !(v.Some? && v.value.Str? && v.value.s in options) && options != [] ==> r == 0
  {
    if v.Some? && v.value.Str? && v.value.s in options then FirstIndex(options, v.value.s)
    else if options == [] then -1
    else 0
  }

  /** A foreign-key field converts a non-null initial value with `int()`
      (only when there are entries to compare against) and fails when that
      raises. */
  predicate FkStartFails(choices: seq<FkOption>, v: Option<Value>)
  {
    choices != [] && v.Some? && !v.value.Null? && IntOf(v.value).None?
  }

  /** A foreign-key field starts on the first entry whose id equals
      `int(initial)`, and otherwise stays on its first entry. */
  function FkStart(choices: seq<FkOption>, v: Option<Value>): (r: Option<int>)
    ensures r.None? <==> FkStartFails(choices, v)
    ensures r.Some? && choices == [] ==> r.value == -1
    ensures r.Some? && choices != [] ==> 0 <= r.value < |choices|
    ensures r.Some? && (v.None? || v.value.Null?) && choices != [] ==> r.value == 0
    ensures r.Some? && v.Some? && !v.value.Null? && choices != [] ==>
              var n := IntOf(v.value).value;
              if exists j :: 0 <= j < |choices| && choices[j].id == n
              then choices[r.value].id == n && forall j :: 0 <= j < r.value ==> choices[j].id != n
              else r.value == 0
  {
    if choices == [] then Some(-1)
    else if v.None? || v.value.Null? then Some(0)
    else match IntOf(v.value)
      case None => None
      case Some(n) => var k := FirstIdIndex(choices, n); Some(if k >= 0 then k else 0)
  }

  /** The widget for `f` can be built from the initial row. */
  predicate Opens(f: Field, initial: Row)
  {
    !(f.kind.FkField? && FkStartFails(f.kind.choices, initial.Get(f.name)))
  }

  /** The widget `RecordDialog.__init__` makes for one field; None where
      building it raises. */
  function InitialWidget(f: Field, initial: Row): (r: Option<Widget>)
    ensures r.Some? <==> Opens(f, initial)
    ensures r.Some? ==> Shaped(f.kind, r.value)
  {
    var v := initial.Get(f.name);
    match f.kind
    case FloatField => Some(SpinBox(SpinStart(v)))
    case EnumField(options) => Some(ComboBox(EnumItems(options), EnumStart(options, v)))
    case FkField(choices) =>
      (match FkStart(choices, v)
       case None => None
       case Some(k) => Some(ComboBox(FkItems(choices), k)))
    case _ => Some(LineEdit(if v.None? || v.value.Null? then "" else Text(v.value), f.kind == PasswordField))
  }

  /** All widgets of the form, by field name; None where one of them fails. */
  function BuildWidgets(fields: seq<Field>, initial: Row): (r: Option<map<string, Widget>>)
    ensures r.Some? <==> forall i :: 0 <= i < |fields| ==> Opens(fields[i], initial)
    decreases |fields|
  {
    if fields == [] then Some(map[])
    else
      var init := fields[..|fields| - 1];
      var f := fields[|fields| - 1];
      assert forall i :: 0 <= i < |init| ==> init[i] == fields[i];
      match BuildWidgets(init, initial)
      case None => None
      case Some(ws) =>
        match InitialWidget(f, initial)
        case None => None
        case Some(w) => Some(ws[f.name := w])
  }

  /** The form has a widget under every field name and no other, and with
      distinct names each widget fits its field. */
  lemma {:induction false} BuildWidgetsFits(fields: seq<Field>, initial: Row)
    requires BuildWidgets(fields, initial).Some?
    ensures forall k :: k in BuildWidgets(fields, initial).value <==> k in Names(fields)
    ensures DistinctNames(fields) ==> Fits(fields, BuildWidgets(fields, initial).value)
    decreases |fields|
  {
    if fields != [] {
      var init := fields[..|fields| - 1];
      var f := fields[|fields| - 1];
      assert forall i :: 0 <= i < |init| ==> init[i] == fields[i];
      BuildWidgetsFits(init, initial);
      var ws := BuildWidgets(init, initial).value;
      var w := InitialWidget(f, initial).value;
      var all := ws[f.name := w];
      assert BuildWidgets(fields, initial).value == all;
      NamesLast(fields);
      if DistinctNames(fields) {
        assert DistinctNames(init);
        forall i | 0 <= i < |fields| ensures fields[i].name in all && Shaped(fields[i].kind, all[fields[i].name]) {
          if i < |init| {
            assert fields[i].name != f.name;
            assert all[fields[i].name] == ws[init[i].name];
          }
        }
      }
    }
  }

  /** Building the form never fails without an initial row (adding a record). */
  lemma BuildWithoutInitial(fields: seq<Field>)
    ensures BuildWidgets(fields, EmptyRow).Some?
  {
    forall i | 0 <= i < |fields| ensures InitialWidget(fields[i], EmptyRow).Some? {
      assert EmptyRow.Get(fields[i].name).None?;
    }
  }

  // ---------- what the user does in the dialog ----------

  /** One user action on the form: typing into a line edit, setting a spin
      box, or picking a drop-down entry. */
  datatype Edit =
    | TypeText(name: string, text: string)
    | SetNumber(name: string, number: Value)
    | Choose(name: string, index: int)

  /** An action on a widget of another kind, or an entry that does not
      exist, changes nothing. */
  function ApplyEdit(widgets: map<string, Widget>, e: Edit): (r: map<string, Widget>)
    ensures r.Keys == widgets.Keys
    ensures forall k :: k in widgets && k != e.name ==> r[k] == widgets[k]
  {
    if e.name !in widgets then widgets
    else
      var w := widgets[e.name];
      match e
      case TypeText(_, t) => if w.LineEdit? then widgets[e.name := LineEdit(t, w.masked)] else widgets
      case SetNumber(_, x) => if w.SpinBox? then widgets[e.name := SpinBox(x)] else widgets
      case Choose(_, i) =>
        if w.ComboBox? && 0 <= i < |w.items| then widgets[e.name := ComboBox(w.items, i)] else widgets
  }

  function ApplyEdits(widgets: map<string, Widget>, edits: seq<Edit>): map<string, Widget>
    decreases |edits|
  {
    if edits == [] then widgets else ApplyEdit(ApplyEdits(widgets, edits[..|edits| - 1]), edits[|edits| - 1])
  }

  /** A user action keeps every widget fitting its field. */
  lemma ApplyEditFits(fields: seq<Field>, widgets: map<string, Widget>, e: Edit)
    requires Fits(fields, widgets)
    ensures Fits(fields, ApplyEdit(widgets, e))
  {
    var r := ApplyEdit(widgets, e);
    forall i | 0 <= i < |fields| ensures fields[i].name in r && Shaped(fields[i].kind, r[fields[i].name]) {
      var n := fields[i].name;
      if n == e.name {
        assert Shaped(fields[i].kind, widgets[n]);
      }
    }
  }

  lemma {:induction false} ApplyEditsFits(fields: seq<Field>, widgets: map<string, Widget>, edits: seq<Edit>)
    requires Fits(fields, widgets)
    ensures Fits(fields, ApplyEdits(widgets, edits))
    ensures ApplyEdits(widgets, edits).Keys == widgets.Keys
    decreases |edits|
  {
    if edits != [] {
      ApplyEditsFits(fields, widgets, edits[..|edits| - 1]);
      ApplyEditFits(fields, ApplyEdits(widgets, edits[..|edits| - 1]), edits[|edits| - 1]);
    }
  }

  // ---------- reading the form ----------

  /** What `values()` stores for one field: a spin box's number, an enum's
      current text, a foreign key's id through `int()`, a line edit's stripped
      text; None where that raises (a widget of another kind, `int(None)` on
      an empty drop-down). */
  function FieldValue(kind: FieldKind, w: Widget): (r: Option<Value>)
    ensures Shaped(kind, w) ==> (r.None? <==> kind.FkField? && kind.choices == [])
    ensures Shaped(kind, w) && kind.FkField? && kind.choices != [] ==> r == Some(Int(kind.choices[w.current].id))
    ensures Shaped(kind, w) && kind.EnumField? ==>
              r == Some(Str(if kind.options == [] then "" else kind.options[w.current]))
    ensures Shaped(kind, w) && (kind.TextField? || kind.PasswordField?) ==> r == Some(Str(Strip(w.text)))
    ensures Shaped(kind, w) && kind.FloatField? ==> r == Some(w.number)
  {
    match kind
    case FloatField => if w.SpinBox? then Some(w.number) else None
    case EnumField(_) => if w.ComboBox? then Some(Str(CurrentText(w))) else None
    case FkField(_) =>
      if w.ComboBox? then
        (match IntOf(CurrentData(w))
         case None => None
         case Some(n) => Some(Int(n)))
      else None
    case _ => if w.LineEdit? then Some(Str(Strip(w.text))) else None
  }

  /** The widget of `f` is there and reads without raising. */
  predicate Reads(f: Field, widgets: map<string, Widget>)
  {
    f.name in widgets && FieldValue(f.kind, widgets[f.name]).Some?
  }

  /** `values()`: the form data by field name; None where reading one field
      raises. */
  function ValuesOf(fields: seq<Field>, widgets: map<string, Widget>): (r: Option<map<string, Value>>)
    ensures r.Some? <==> forall i :: 0 <= i < |fields| ==> Reads(fields[i], widgets)
    decreases |fields|
  {
    if fields == [] then Some(map[])
    else
      var init := fields[..|fields| - 1];
      var f := fields[|fields| - 1];
      assert forall i :: 0 <= i < |init| ==> init[i] == fields[i];
      match ValuesOf(init, widgets)
      case None => None
      case Some(data) =>
        if f.name !in widgets then None
        else match FieldValue(f.kind, widgets[f.name])
          case None => None
          case Some(v) => Some(data[f.name := v])
  }

  /** The form data has an entry under every field name and no other. */
  lemma {:induction false} ValuesOfKeys(fields: seq<Field>, widgets: map<string, Widget>)
    requires ValuesOf(fields, widgets).Some?
    ensures forall k :: k in ValuesOf(fields, widgets).value <==> k in Names(fields)
    decreases |fields|
  {
    if fields != [] {
      var init := fields[..|fields| - 1];
      var f := fields[|fields| - 1];
      assert forall i :: 0 <= i < |init| ==> init[i] == fields[i];
      ValuesOfKeys(init, widgets);
      var v := FieldValue(f.kind, widgets[f.name]).value;
      assert ValuesOf(fields, widgets).value == ValuesOf(init, widgets).value[f.name := v];
      NamesLast(fields);
    }
  }

  /** With distinct names, each entry of the form data is what that field's
      widget reads. */
  lemma {:induction false} ValuesOfAt(fields: seq<Field>, widgets: map<string, Widget>, i: int)
    requires ValuesOf(fields, widgets).Some? && DistinctNames(fields) && 0 <= i < |fields|
    ensures Reads(fields[i], widgets)
    ensures fields[i].name in ValuesOf(fields, widgets).value
    ensures ValuesOf(fields, widgets).value[fields[i].name] == FieldValue(fields[i].kind, widgets[fields[i].name]).value
    decreases |fields|
  {
    var init := fields[..|fields| - 1];
    var f := fields[|fields| - 1];
    var v := FieldValue(f.kind, widgets[f.name]).value;
    assert ValuesOf(fields, widgets).value == ValuesOf(init, widgets).value[f.name := v];
    if i < |init| {
      assert init[i] == fields[i];
      assert DistinctNames(init);
      assert fields[i].name != f.name;
      ValuesOfAt(init, widgets, i);
    }
  }

  /** With every widget fitting its field, reading the form succeeds exactly
      when no foreign-key drop-down is empty. */
  lemma ValuesSucceedIff(fields: seq<Field>, widgets: map<string, Widget>)
    requires Fits(fields, widgets)
    ensures ValuesOf(fields, widgets).Some? <==> FkReady(fields)
  {
    if FkReady(fields) {
      forall i | 0 <= i < |fields|
        ensures FieldValue(fields[i].kind, widgets[fields[i].name]).Some?
      {
        assert Shaped(fields[i].kind, widgets[fields[i].name]);
      }
    } else {
      var i :| 0 <= i < |fields| && fields[i].kind.FkField? && fields[i].kind.choices == [];
      assert Shaped(fields[i].kind, widgets[fields[i].name]);
    }
  }

  /** The data a dialog opened on `initial` yields after the user's actions;
      None where opening or reading the form raises. */
  function DialogData(fields: seq<Field>, initial: Row, edits: seq<Edit>): Option<map<string, Value>>
  {
    match BuildWidgets(fields, initial)
    case None => None
    case Some(ws) => ValuesOf(fields, ApplyEdits(ws, edits))
  }

  /** A form with distinct field names that opens yields data for every field
      exactly when every foreign-key drop-down has a choice, whatever the
      user does. */
  lemma DialogDataSucceeds(fields: seq<Field>, initial: Row, edits: seq<Edit>)
    requires DistinctNames(fields) && BuildWidgets(fields, initial).Some?
    ensures DialogData(fields, initial, edits).Some? <==> FkReady(fields)
    ensures DialogData(fields, initial, edits).Some? ==>
              forall k :: k in DialogData(fields, initial, edits).value <==> k in Names(fields)
  {
    var ws := BuildWidgets(fields, initial).value;
    BuildWidgetsFits(fields, initial);
    ApplyEditsFits(fields, ws, edits);
    ValuesSucceedIff(fields, ApplyEdits(ws, edits));
    if DialogData(fields, initial, edits).Some? {
      ValuesOfKeys(fields, ApplyEdits(ws, edits));
    }
  }

  // ---------- the dialog ----------

  class RecordDialog {
    const fields: seq<Field>
    var widgets: map<string, Widget>

    constructor (fields: seq<Field>, widgets: map<string, Widget>)
      ensures this.fields == fields && this.widgets == widgets
    {
      this.fields := fields;
      this.widgets := widgets;
    }

    /** `RecordDialog(title, fields, initial)`: one widget per field, in field
        order; null where building a widget raises. */
    static method Open(fields: seq<Field>, initial: Row) returns (d: RecordDialog?)
      ensures d == null <==> BuildWidgets(fields, initial).None?
      ensures d != null ==> fresh(d) && d.fields == fields && d.widgets == BuildWidgets(fields, initial).value
    {
      var ws: map<string, Widget> := map[];
      for i := 0 to |fields|
        invariant BuildWidgets(fields[..i], initial) == Some(ws)
      {
        assert fields[..i + 1][..i] == fields[..i];
        var w := MakeWidget(fields[i], initial);
        if w.None? {
          assert !InitialWidget(fields[..i + 1][i], initial).Some?;
          return null;
        }
        ws := ws[fields[i].name := w.value];
      }
      assert fields[..|fields|] == fields;
      d := new RecordDialog(fields, ws);
    }

    /** The widget for one field; for a foreign key, the scan over the entries
        for the initial id. */
    static method MakeWidget(f: Field, initial: Row) returns (w: Option<Widget>)
      ensures w == InitialWidget(f, initial)
    {
      var v := initial.Get(f.name);
      match f.kind {
        case FkField(choices) =>
          var items := FkItems(choices);
          var current := if choices == [] then -1 else 0;
          if v.Some? && !v.value.Null? {
            var i := 0;
            while i < |items|
              invariant 0 <= i <= |items|
              invariant i > 0 ==> IntOf(v.value).Some?
              invariant i > 0 ==> forall j :: 0 <= j < i ==> choices[j].id != IntOf(v.value).value
              invariant current == (if choices == [] then -1 else 0)
            {
              var n := IntOf(v.value);
              if n.None? {
                return None;
              }
              if items[i].data == Int(n.value) {
                current := i;
                break;
              }
              i := i + 1;
            }
            assert i < |items| ==> current == i && choices[i].id == IntOf(v.value).value;
          }
          w := Some(ComboBox(items, current));
        case _ =>
          w := InitialWidget(f, initial);
      }
    }

    /** One user action. */
    method Apply(e: Edit)
      modifies this
      ensures widgets == ApplyEdit(old(widgets), e)
    {
      widgets := ApplyEdit(widgets, e);
    }

    /** `exec()`: the user's actions, in order, until the dialog closes. */
    method Exec(edits: seq<Edit>)
      modifies this
      ensures widgets == ApplyEdits(old(widgets), edits)
    {
      for k := 0 to |edits|
        invariant widgets == ApplyEdits(old(widgets), edits[..k])
      {
        assert edits[..k + 1][..k] == edits[..k];
        Apply(edits[k]);
      }
      assert edits[..|edits|] == edits;
    }

    /** `values()`: reads every field in order. */
    method Values() returns (data: Option<map<string, Value>>)
      ensures data == ValuesOf(fields, widgets)
    {
      var d: map<string, Value> := map[];
      for i := 0 to |fields|
        invariant ValuesOf(fields[..i], widgets) == Some(d)
      {
        assert fields[..i + 1][..i] == fields[..i];
        var f := fields[i];
        if f.name !in widgets {
          assert ValuesOf(fields[..i + 1], widgets).None?;
          PrefixFailure(fields, widgets, i + 1);
          return None;
        }
        var v := FieldValue(f.kind, widgets[f.name]);
        if v.None? {
          assert ValuesOf(fields[..i + 1], widgets).None?;
          PrefixFailure(fields, widgets, i + 1);
          return None;
        }
        d := d[f.name := v.value];
      }
      assert fields[..|fields|] == fields;
      data := Some(d);
    }

    static lemma PrefixFailure(fields: seq<Field>, widgets: map<string, Widget>, n: nat)
      requires n <= |fields| && ValuesOf(fields[..n], widgets).None?
      ensures ValuesOf(fields, widgets).None?
    {
      var i :| 0 <= i < n && !(fields[..n][i].name in widgets
                                && FieldValue(fields[..n][i].kind, widgets[fields[..n][i].name]).Some?);
      assert fields[..n][i] == fields[i];
    }
  }

  // ---------- statements ----------

  /** `rows[0] if rows else {}`: the row fetched for an edit. */
  function FirstRowOrEmpty(rows: seq<Row>): (r: Row)
    ensures rows != [] ==> r == rows[0]
    ensures rows == [] ==> r == EmptyRow
  {
    if rows == [] then EmptyRow else rows[0]
  }

  /** `data[c]` is defined for every column. */
  predicate Covers(data: map<string, Value>, cols: seq<string>)
  {
    forall i :: 0 <= i < |cols| ==> cols[i] in data
  }

  /** `tuple(data[c] for c in cols)`. */
  function Pick(cols: seq<string>, data: map<string, Value>): (r: seq<Value>)
    requires Covers(data, cols)
    ensures |r| == |cols| && forall i :: 0 <= i < |cols| ==> r[i] == data[cols[i]]
  {
    seq(|cols|, i requires 0 <= i < |cols| && Covers(data, cols) => data[cols[i]])
  }

  /** `_fetch_row_by_pk`: the form's columns of the row whose pk is `pkVal`. */
  function SelectByPk(table: string, pk: string, cols: seq<string>, pkVal: string): (st: Statement)
    ensures st.params == [Str(pkVal)]
  {
    Statement("SELECT " + ColumnList(cols) + " FROM " + Quote(table) + WherePk(pk) + ";", [Str(pkVal)])
  }

  /** The INSERT of `add_record`; None where `data[c]` raises KeyError. */
  function InsertStatement(table: string, cols: seq<string>, data: map<string, Value>): (st: Option<Statement>)
    ensures st.Some? <==> Covers(data, cols)
    ensures st.Some? ==> st.value.params == Pick(cols, data)
  {
    if Covers(data, cols) then
      Some(Statement(InsertInto(table, cols) + ";", Pick(cols, data)))
    else None
  }

  /** The UPDATE of `edit_record`: the update values, then the selected pk. */
  function UpdateStatement(table: string, pk: string, cols: seq<string>, data: map<string, Value>,
                           pkVal: string): (st: Option<Statement>)
    ensures st.Some? <==> Covers(data, cols)
    ensures st.Some? ==> st.value.params == Pick(cols, data) + [Str(pkVal)]
  {
    if Covers(data, cols) then
      Some(Statement(UpdateSet(table, cols, pk) + ";", Pick(cols, data) + [Str(pkVal)]))
    else None
  }

  /** The DELETE of `delete_record`. */
  function DeleteStatement(table: string, pk: string, pkVal: string): (st: Statement)
    ensures st.params == [Str(pkVal)]
  {
    Statement(DeleteFrom(table, pk) + ";", [Str(pkVal)])
  }

  /** The select-by-pk text holds one placeholder, for its one parameter. */
  lemma SelectByPkPlaceholders(table: string, pk: string, cols: seq<string>, pkVal: string)
    requires PercentFree(table) && PercentFree(pk) && AllPercentFree(cols)
    ensures Occurrences(SelectByPk(table, pk, cols, pkVal).text) == |SelectByPk(table, pk, cols, pkVal).params| == 1
  {
    var head := "SELECT " + ColumnList(cols) + " FROM " + Quote(table);
    QuotedIdentifier(table);
    ColumnListCount(cols);
    WherePkCount(pk);
    PercentFreeHasNone("SELECT ");
    PercentFreeHasNone(" FROM ");
    Append("SELECT ", ColumnList(cols));
    Append("SELECT " + ColumnList(cols), " FROM ");
    Append("SELECT " + ColumnList(cols) + " FROM ", Quote(table));
    Append(head, WherePk(pk));
    Terminated(head + WherePk(pk));
  }

  /** The INSERT text holds one placeholder per inserted column, as many as
      there are parameters. */
  lemma InsertPlaceholders(table: string, cols: seq<string>, data: map<string, Value>)
    requires PercentFree(table) && AllPercentFree(cols) && Covers(data, cols)
    ensures var st := InsertStatement(table, cols, data).value;
            Occurrences(st.text) == |st.params| == |cols|
  {
    InsertIntoCount(table, cols);
    Terminated(InsertInto(table, cols));
  }

  /** The UPDATE text holds one placeholder per assigned column plus the pk
      placeholder, as many as there are parameters. */
  lemma UpdatePlaceholders(table: string, pk: string, cols: seq<string>, data: map<string, Value>, pkVal: string)
    requires PercentFree(table) && PercentFree(pk) && AllPercentFree(cols) && Covers(data, cols)
    ensures var st := UpdateStatement(table, pk, cols, data, pkVal).value;
            Occurrences(st.text) == |st.params| == |cols| + 1
  {
    UpdateSetCount(table, cols, pk);
    Terminated(UpdateSet(table, cols, pk));
  }

  /** The DELETE text holds one placeholder, for the selected pk. */
  lemma DeletePlaceholders(table: string, pk: string, pkVal: string)
    requires PercentFree(table) && PercentFree(pk)
    ensures Occurrences(DeleteStatement(table, pk, pkVal).text) == |DeleteStatement(table, pk, pkVal).params| == 1
  {
    DeleteFromCount(table, pk);
    Terminated(DeleteFrom(table, pk));
  }

  // ---------- the outcome of the buttons ----------

  /** `if not pk_val`: a row is selected and its pk text is not empty. */
  predicate PkChosen(sel: Option<string>)
  {
    sel.Some? && sel.value != ""
  }

  /** `add_record`: an empty form, the user's actions, then the INSERT when
      the dialog is accepted; None where anything before `execute` raises. */
  function AddOutcome(fields: seq<Field>, table: string, insertCols: seq<string>,
                      edits: seq<Edit>, accepted: bool): Option<Statement>
  {
    if !accepted then None
    else match DialogData(fields, EmptyRow, edits)
      case None => None
      case Some(data) => InsertStatement(table, insertCols, data)
  }

  /** `edit_record` after the pk lookup: a form opened on the fetched row,
      the user's actions, then the UPDATE when the dialog is accepted. */
  function EditOutcome(fields: seq<Field>, table: string, pk: string, updateCols: seq<string>,
                       sel: Option<string>, fetched: Option<seq<Row>>,
                       edits: seq<Edit>, accepted: bool): Option<Statement>
  {
    if !PkChosen(sel) || fetched.None? || !accepted then None
    else match DialogData(fields, FirstRowOrEmpty(fetched.value), edits)
      case None => None
      case Some(data) => UpdateStatement(table, pk, updateCols, data, sel.value)
  }

  // ---------- page configurations ----------

  /** The arguments of `CrudPage.__init__` other than the view query. */
  datatype PageConfig = PageConfig(title: string, viewCols: seq<string>, table: string, pk: string,
                                   formFields: seq<Field>, insertCols: seq<string>, updateCols: seq<string>)

  /** What the pages rely on: the first view column is the pk, the form does
      not hold the pk, every inserted and updated column is a form field (so
      `data[c]` is defined), field names are distinct, and no identifier
      holds a `%`. */
  predicate ConfigOk(c: PageConfig)
  {
    && c.viewCols != [] && c.viewCols[0] == c.pk
    && DistinctNames(c.formFields)
    && c.pk !in Names(c.formFields)
    && (forall i :: 0 <= i < |c.insertCols| ==> c.insertCols[i] in Names(c.formFields))
    && (forall i :: 0 <= i < |c.updateCols| ==> c.updateCols[i] in Names(c.formFields))
    && PercentFree(c.table) && PercentFree(c.pk)
    && AllPercentFree(c.insertCols) && AllPercentFree(c.updateCols) && AllPercentFree(Names(c.formFields))
  }

  function UsersPage(): PageConfig
  {
    PageConfig("Users", ["user_id", "nama", "email", "no_hp", "password"], "users", "user_id",
      [Field("nama", "Nama", TextField), Field("email", "Email", TextField),
       Field("no_hp", "No HP", TextField), Field("password", "Password", PasswordField)],
      ["nama", "email", "no_hp", "password"],
      ["nama", "email", "no_hp", "password"])
  }

  function DriversPage(users: seq<FkOption>): PageConfig
  {
    PageConfig("Drivers", ["driver_id", "user_id", "nama_driver", "no_hp", "plat_nomor", "jenis_motor"],
      "drivers", "driver_id",
      [Field("user_id", "Pilih User (Driver)", FkField(users)),
       Field("plat_nomor", "Plat Nomor", TextField), Field("jenis_motor", "Jenis Motor", TextField)],
      ["user_id", "plat_nomor", "jenis_motor"],
      ["user_id", "plat_nomor", "jenis_motor"])
  }

  function AdminPage(): PageConfig
  {
    PageConfig("Admin", ["admin_id", "nama", "email", "no_hp", "password"], "admin", "admin_id",
      [Field("nama", "Nama", TextField), Field("email", "Email", TextField),
       Field("no_hp", "No HP", TextField), Field("password", "Password", PasswordField)],
      ["nama", "email", "no_hp", "password"],
      ["nama", "email", "no_hp", "password"])
  }

  function OrdersPage(users: seq<FkOption>, drivers: seq<FkOption>): PageConfig
  {
    PageConfig("Pesanan",
      ["pesanan_id", "pelanggan_id", "pelanggan", "driver_id", "driver", "titik_awal", "titik_tujuan", "jarak", "biaya"],
      "orders", "pesanan_id",
      [Field("pelanggan_id", "Pilih Pelanggan", FkField(users)),
       Field("driver_id", "Pilih Driver", FkField(drivers)),
       Field("titik_awal", "Titik Awal", TextField), Field("titik_tujuan", "Titik Tujuan", TextField),
       Field("jarak", "Jarak (KM)", FloatField), Field("biaya", "Biaya", FloatField)],
      ["pelanggan_id", "driver_id", "titik_awal", "titik_tujuan", "jarak", "biaya"],
      ["pelanggan_id", "driver_id", "titik_awal", "titik_tujuan", "jarak", "biaya"])
  }

  function PaymentsPage(orders: seq<FkOption>): PageConfig
  {
    PageConfig("Pembayaran", ["payment_id", "pesanan_id", "pelanggan", "driver", "metode", "jumlah"],
      "payments", "payment_id",
      [Field("pesanan_id", "Pilih Pesanan", FkField(orders)),
       Field("metode", "Metode", EnumField(["cash", "e-wallet", "kartu"])),
       Field("jumlah", "Jumlah", FloatField)],
      ["pesanan_id", "metode", "jumlah"],
      ["pesanan_id", "metode", "jumlah"])
  }

  /** A page whose inserted and updated columns are exactly its form
      fields, in form order. */
  lemma ColumnsAreFields(c: PageConfig)
    requires Names(c.formFields) == c.insertCols == c.updateCols
    requires c.viewCols != [] && c.viewCols[0] == c.pk && c.pk !in c.insertCols
    requires forall i, j :: 0 <= i < j < |c.insertCols| ==> c.insertCols[i] != c.insertCols[j]
    requires PercentFree(c.table) && PercentFree(c.pk) && AllPercentFree(c.insertCols)
    ensures ConfigOk(c)
  {
    assert forall i :: 0 <= i < |c.formFields| ==> c.formFields[i].name == c.insertCols[i];
  }

  lemma UsersPageOk()
    ensures ConfigOk(UsersPage())
  {
    var c := UsersPage();
    assert Names(c.formFields) == c.insertCols;
    ColumnsAreFields(c);
  }

  lemma AdminPageOk()
    ensures ConfigOk(AdminPage())
  {
    var c := AdminPage();
    assert Names(c.formFields) == c.insertCols;
    ColumnsAreFields(c);
  }

  lemma DriversPageOk(users: seq<FkOption>)
    ensures ConfigOk(DriversPage(users))
  {
    var c := DriversPage(users);
    assert Names(c.formFields) == c.insertCols;
    ColumnsAreFields(c);
  }

  lemma OrdersPageOk(users: seq<FkOption>, drivers: seq<FkOption>)
    ensures ConfigOk(OrdersPage(users, drivers))
  {
    var c := OrdersPage(users, drivers);
    assert Names(c.formFields) == c.insertCols;
    OrderColumnsDistinct(c.insertCols);
    OrderColumnsPercentFree(c.insertCols);
    ColumnsAreFields(c);
  }

  /** The orders page's insert columns, stated apart from the page so that
      `OrdersPageOk` stays within the solver's budget. */
  lemma OrderColumnsDistinct(cols: seq<string>)
    requires cols == ["pelanggan_id", "driver_id", "titik_awal", "titik_tujuan", "jarak", "biaya"]
    ensures forall i, j :: 0 <= i < j < |cols| ==> cols[i] != cols[j]
    ensures "pesanan_id" !in cols
  {
  }

  lemma OrderColumnsPercentFree(cols: seq<string>)
    requires cols == ["pelanggan_id", "driver_id", "titik_awal", "titik_tujuan", "jarak", "biaya"]
    ensures AllPercentFree(cols)
  {
  }

  lemma PaymentsPageOk(orders: seq<FkOption>)
    ensures ConfigOk(PaymentsPage(orders))
  {
    var c := PaymentsPage(orders);
    assert Names(c.formFields) == c.insertCols;
    ColumnsAreFields(c);
  }

  /** All five concrete pages meet what the pages rely on, whatever the
      drop-down options. */
  lemma ConcretePagesOk(users: seq<FkOption>, drivers: seq<FkOption>, orders: seq<FkOption>)
    ensures ConfigOk(UsersPage()) && ConfigOk(AdminPage()) && ConfigOk(DriversPage(users))
    ensures ConfigOk(OrdersPage(users, drivers)) && ConfigOk(PaymentsPage(orders))
  {
    UsersPageOk();
    AdminPageOk();
    DriversPageOk(users);
    OrdersPageOk(users, drivers);
    PaymentsPageOk(orders);
  }

  // ---------- refreshing the drop-downs ----------

  /** `_refresh_fk` on one field: a foreign-key field gets fresh options by
      its name; any other field is left as it is. */
  function RefreshField(f: Field, users: seq<FkOption>, drivers: seq<FkOption>, orders: seq<FkOption>): (r: Field)
    ensures r.name == f.name && r.caption == f.caption
    ensures r.kind.FkField? <==> f.kind.FkField?
    ensures !f.kind.FkField? ==> r == f
    ensures f.kind.FkField? && (f.name == "user_id" || f.name == "pelanggan_id") ==> r.kind.choices == users
    ensures f.kind.FkField? && f.name == "driver_id" ==> r.kind.choices == drivers
    ensures f.kind.FkField? && f.name == "pesanan_id" ==> r.kind.choices == orders
    ensures f.name !in ["user_id", "pelanggan_id", "driver_id", "pesanan_id"] ==> r == f
  {
    if !f.kind.FkField? then f
    else if f.name == "user_id" || f.name == "pelanggan_id" then f.(kind := FkField(users))
    else if f.name == "driver_id" then f.(kind := FkField(drivers))
    else if f.name == "pesanan_id" then f.(kind := FkField(orders))
    else f
  }

  function RefreshFields(fields: seq<Field>, users: seq<FkOption>, drivers: seq<FkOption>,
                         orders: seq<FkOption>): (r: seq<Field>)
    ensures |r| == |fields|
    ensures forall i :: 0 <= i < |fields| ==> r[i] == RefreshField(fields[i], users, drivers, orders)
  {
    seq(|fields|, i requires 0 <= i < |fields| => RefreshField(fields[i], users, drivers, orders))
  }

  /** Refreshing twice with the same options is refreshing once. */
  lemma RefreshIdempotent(fields: seq<Field>, users: seq<FkOption>, drivers: seq<FkOption>, orders: seq<FkOption>)
    ensures RefreshFields(RefreshFields(fields, users, drivers, orders), users, drivers, orders)
            == RefreshFields(fields, users, drivers, orders)
  {
    var once := RefreshFields(fields, users, drivers, orders);
    var twice := RefreshFields(once, users, drivers, orders);
    forall i | 0 <= i < |fields| ensures twice[i] == once[i] {
      assert once[i] == RefreshField(fields[i], users, drivers, orders);
    }
  }

  /** Refreshing keeps the field names, hence everything a page relies on. */
  lemma RefreshKeepsConfig(c: PageConfig, users: seq<FkOption>, drivers: seq<FkOption>, orders: seq<FkOption>)
    requires ConfigOk(c)
    ensures Names(RefreshFields(c.formFields, users, drivers, orders)) == Names(c.formFields)
    ensures ConfigOk(c.(formFields := RefreshFields(c.formFields, users, drivers, orders)))
  {
    var r := RefreshFields(c.formFields, users, drivers, orders);
    assert Names(r) == Names(c.formFields);
  }

  // ---------- what an accepted dialog issues ----------

  /** On a page that meets its configuration, an accepted add issues an
      INSERT exactly when no foreign-key drop-down is empty, and its text
      then holds one placeholder per parameter. */
  lemma AddIssuesInsert(c: PageConfig, edits: seq<Edit>)
    requires ConfigOk(c)
    ensures AddOutcome(c.formFields, c.table, c.insertCols, edits, true).Some? <==> FkReady(c.formFields)
    ensures AddOutcome(c.formFields, c.table, c.insertCols, edits, true).Some? ==>
              var st := AddOutcome(c.formFields, c.table, c.insertCols, edits, true).value;
              Occurrences(st.text) == |st.params| == |c.insertCols|
  {
    BuildWithoutInitial(c.formFields);
    DialogDataSucceeds(c.formFields, EmptyRow, edits);
    var d := DialogData(c.formFields, EmptyRow, edits);
    if d.Some? {
      InsertPlaceholders(c.table, c.insertCols, d.value);
    }
  }

  /** On a page that meets its configuration, an accepted edit of a chosen
      row whose form opens issues an UPDATE exactly when no foreign-key
      drop-down is empty; its text then holds one placeholder per parameter
      and the last parameter is the selected pk. */
  lemma EditIssuesUpdate(c: PageConfig, pkVal: string, rows: seq<Row>, edits: seq<Edit>)
    requires ConfigOk(c) && pkVal != ""
    requires BuildWidgets(c.formFields, FirstRowOrEmpty(rows)).Some?
    ensures EditOutcome(c.formFields, c.table, c.pk, c.updateCols, Some(pkVal), Some(rows), edits, true).Some?
            <==> FkReady(c.formFields)
    ensures EditOutcome(c.formFields, c.table, c.pk, c.updateCols, Some(pkVal), Some(rows), edits, true).Some? ==>
              var st := EditOutcome(c.formFields, c.table, c.pk, c.updateCols, Some(pkVal), Some(rows), edits, true).value;
              && Occurrences(st.text) == |st.params| == |c.updateCols| + 1
              && st.params[|c.updateCols|] == Str(pkVal)
  {
    var initial := FirstRowOrEmpty(rows);
    DialogDataSucceeds(c.formFields, initial, edits);
    var d := DialogData(c.formFields, initial, edits);
    if d.Some? {
      UpdatePlaceholders(c.table, c.pk, c.updateCols, d.value, pkVal);
    }
  }

  // ---------- the page ----------

  class CrudPage {
    const title: string
    const viewCols: seq<string>
    const table: string
    const pk: string
    const insertCols: seq<string>
    const updateCols: seq<string>
    /** The field descriptors; `_refresh_fk` replaces their options in place. */
    var formFields: seq<Field>
    const tbl: TableWidget

    ghost predicate Valid()
      reads this, tbl
    {
      tbl.Valid()
    }

    /** The configuration the page currently runs with. */
    function Config(): PageConfig
      reads this
    {
      PageConfig(title, viewCols, table, pk, formFields, insertCols, updateCols)
    }

    /** The grid shows `rows` under the view columns. */
    ghost predicate Shows(rows: seq<Row>)
      reads this, tbl
    {
      && tbl.rowCount == |rows| && tbl.columnCount == |viewCols|
      && tbl.Headers() == Labels(viewCols)
      && tbl.Cells() == GridOf(viewCols, rows)
    }

    /** `CrudPage.__init__`: stores the configuration and loads the page. */
    constructor (c: PageConfig, users: seq<UserRow>, drivers: seq<DriverRow>, orders: seq<OrderRow>,
                 view: Option<seq<Row>>)
      ensures Valid() && fresh(tbl)
      ensures Config() == c.(formFields := RefreshFields(c.formFields, LoadUsersOptions(users),
                                                          LoadDriversOptions(drivers), LoadOrdersOptions(orders)))
      ensures view.Some? ==> Shows(view.value)
      ensures view.None? ==> tbl.rowCount == 0 && tbl.columnCount == 0 && tbl.header == map[] && tbl.items == map[]
    {
      title, viewCols, table, pk := c.title, c.viewCols, c.table, c.pk;
      insertCols, updateCols, formFields := c.insertCols, c.updateCols, c.formFields;
      tbl := new TableWidget();
      new;
      LoadData(users, drivers, orders, view);
    }

    /** `_refresh_fk`: each foreign-key field gets the options of the table
        its name refers to. */
    method RefreshFk(users: seq<UserRow>, drivers: seq<DriverRow>, orders: seq<OrderRow>)
      modifies this
      ensures formFields == RefreshFields(old(formFields), LoadUsersOptions(users),
                                          LoadDriversOptions(drivers), LoadOrdersOptions(orders))
    {
      var u, d, o := LoadUsersOptions(users), LoadDriversOptions(drivers), LoadOrdersOptions(orders);
      for i := 0 to |formFields|
        invariant |formFields| == |old(formFields)|
        invariant forall j :: 0 <= j < i ==> formFields[j] == RefreshField(old(formFields)[j], u, d, o)
        invariant forall j :: i <= j < |formFields| ==> formFields[j] == old(formFields)[j]
      {
        var f := formFields[i];
        if f.kind.FkField? {
          if f.name == "user_id" || f.name == "pelanggan_id" {
            formFields := formFields[i := f.(kind := FkField(u))];
          } else if f.name == "driver_id" {
            formFields := formFields[i := f.(kind := FkField(d))];
          } else if f.name == "pesanan_id" {
            formFields := formFields[i := f.(kind := FkField(o))];
          }
        }
      }
    }

    /** `load_data`: refresh the drop-downs, then fill the grid from the view
        query's rows; a failing query (None) leaves the grid as it was. */
    method LoadData(users: seq<UserRow>, drivers: seq<DriverRow>, orders: seq<OrderRow>, view: Option<seq<Row>>)
      requires Valid()
      modifies this, tbl
      ensures Valid()
      ensures formFields == RefreshFields(old(formFields), LoadUsersOptions(users),
                                          LoadDriversOptions(drivers), LoadOrdersOptions(orders))
      ensures view.Some? ==> Shows(view.value)
      ensures view.None? ==> unchanged(tbl)
    {
      RefreshFk(users, drivers, orders);
      if view.Some? {
        tbl.Populate(viewCols, view.value);
      }
    }

    /** `_selected_pk`: the text of the first cell of the current row, if
        there is a current row and that cell has an item. */
    function SelectedPk(currentRow: int): (r: Option<string>)
      reads tbl
      ensures currentRow < 0 ==> r.None?
      ensures currentRow >= 0 ==> r == tbl.Item(currentRow, 0)
    {
      if currentRow < 0 then None else tbl.Item(currentRow, 0)
    }

    /** After loading `rows` on a page whose first view column is the pk, the
        selected pk of a shown row is that row's pk cell, and any other row
        index selects nothing. */
    lemma SelectedPkAfterLoad(rows: seq<Row>, currentRow: int)
      requires Valid() && Shows(rows) && viewCols != [] && viewCols[0] == pk
      ensures 0 <= currentRow < |rows| ==> SelectedPk(currentRow) == Some(CellText(rows[currentRow], pk))
      ensures !(0 <= currentRow < |rows|) ==> SelectedPk(currentRow).None?
    {
      if 0 <= currentRow < |rows| {
        assert tbl.Cells()[currentRow][0] == GridOf(viewCols, rows)[currentRow][0];
      }
    }

    /** `add_record`: the statement `execute` receives, if any. */
    method AddRecord(edits: seq<Edit>, accepted: bool) returns (st: Option<Statement>)
      ensures st == AddOutcome(formFields, table, insertCols, edits, accepted)
      ensures !accepted ==> st.None?
    {
      var dlg := RecordDialog.Open(formFields, EmptyRow);
      if dlg == null {
        return None;
      }
      dlg.Exec(edits);
      if !accepted {
        return None;
      }
      var data := dlg.Values();
      if data.None? {
        return None;
      }
      st := InsertStatement(table, insertCols, data.value);
    }

    /** `edit_record`: the pk lookup issued for the selected row (`fetched`
        is its result, None where it raised) and the UPDATE, if any. */
    method EditRecord(currentRow: int, fetched: Option<seq<Row>>, edits: seq<Edit>, accepted: bool)
      returns (lookup: Option<Statement>, st: Option<Statement>)
      ensures lookup == if PkChosen(SelectedPk(currentRow))
                        then Some(SelectByPk(table, pk, Names(formFields), SelectedPk(currentRow).value))
                        else None
      ensures st == EditOutcome(formFields, table, pk, updateCols, SelectedPk(currentRow), fetched, edits, accepted)
      ensures !PkChosen(SelectedPk(currentRow)) || !accepted ==> st.None?
    {
      var sel := SelectedPk(currentRow);
      if sel.None? || sel.value == "" {
        return None, None;
      }
      lookup := Some(SelectByPk(table, pk, Names(formFields), sel.value));
      if fetched.None? {
        return lookup, None;
      }
      var dlg := RecordDialog.Open(formFields, FirstRowOrEmpty(fetched.value));
      if dlg == null {
        return lookup, None;
      }
      dlg.Exec(edits);
      if !accepted {
        return lookup, None;
      }
      var data := dlg.Values();
      if data.None? {
        return lookup, None;
      }
      st := UpdateStatement(table, pk, updateCols, data.value, sel.value);
    }

    /** `delete_record`: the DELETE of the selected row, once confirmed. */
    method DeleteRecord(currentRow: int, confirmed: bool) returns (st: Option<Statement>)
      ensures PkChosen(SelectedPk(currentRow)) && confirmed ==>
                st == Some(DeleteStatement(table, pk, SelectedPk(currentRow).value))
      ensures !PkChosen(SelectedPk(currentRow)) || !confirmed ==> st.None?
    {
      var sel := SelectedPk(currentRow);
      if sel.None? || sel.value == "" {
        return None;
      }
      if !confirmed {
        return None;
      }
      st := Some(DeleteStatement(table, pk, sel.value));
    }
  }
}
