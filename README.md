# Ride-hailing admin GUI: CRUD engines and report dashboard

This project models the data-handling core of a desktop admin application for
a ride-hailing ("ojek online") service. The application runs on a MySQL
database of users, admins, drivers, orders and payments. It has three parts.

- **The hand-configured CRUD pages** (`crud_pages.py`). A `CrudPage` is set up
  with a view query, view columns, a table, a primary key, form field
  descriptors (text, password, float, enum, foreign key) and the insert and
  update column lists. The page:
  - fills a table widget from the view query;
  - refreshes the foreign-key drop-downs from three option queries;
  - opens a `RecordDialog` built from the field descriptors;
  - issues parameterised `INSERT`, `UPDATE` and `DELETE` statements keyed by
    the primary key of the selected row.

  Five concrete pages configure it: users, drivers, admin, orders and
  payments.
- **The schema-driven CRUD widget** (`crud_widget.py`). It reads the table's
  column catalogue (`SHOW COLUMNS`) and finds the primary key and the
  auto-increment columns. It shows `SELECT *` through a table model and
  builds its own dialog of line edits, one per non-auto column. In that
  dialog a blank entry means SQL NULL. It then issues the matching
  statements.
- **The report dashboard** (`report_dashboard.py`). It has ten report tabs.
  Each tab loads a query's rows into a table widget, with the first row's
  keys as the columns. A tab exports its table as an HTML document with
  every text HTML-escaped. `refresh_all` reloads every tab.

The model has seven modules.

| module | file | contents |
|---|---|---|
| `Values` | `values.dfy` | values as they travel between the driver, the widgets and the statements; an ordered dictionary row; Python's `str()`, `int()`, `strip()` and substring test |
| `Sql` | `sql.dfy` | SQL text with back-quoted identifiers, comma-joined lists and `%s` placeholders; lemmas that count the placeholders |
| `Grid` | `grid.dfy` | the item-based table widget, as a class with row and column counts, header items and cell items |
| `Html` | `html.dfy` | `html_escape`, with a reference definition and a decoder |
| `CrudPages` | `crud_pages.dfy` | the hand-configured pages |
| `CrudWidget` | `crud_widget.dfy` | the schema-driven widget |
| `ReportDashboard` | `report_dashboard.dfy` | the tabs and the dashboard |

The model does not perform database I/O.
- Every query's outcome is an input. Where the source catches a failing
  query, or lets it leave an event handler, `None` stands for the query
  having raised.
- Every user action is an input: the edits made in a dialog, and whether the
  dialog was accepted or the deletion confirmed.
- Each CRUD operation returns the statement (its SQL text and its parameters)
  that the source hands to `execute`, or `None` where the source returns
  without executing anything.

Objects that the source updates in place are classes: the table widget, both
dialogs, the CRUD page, the CRUD widget, the report tab and the dashboard.

## Model

| member | source | states |
|---|---|---|
| Values.Dict.Get | crud_pages.py:192 | `row.get(col)` finds a value exactly when the key is in the row, and finds the value stored under it |
| Values.DecimalRoundTrip | crud_pages.py:79 | `int(str(i))` gives back `i` for every integer, negative ones included |
| Values.Text | crud_pages.py:193 | `str(v)` prints a string as itself, prints an integer so that `int()` reads it back, and prints NULL as `None` |
| Values.Display | crud_widget.py:83 | a cell shows `""` for NULL and `str(v)` otherwise; it shows empty only for NULL or an empty value |
| Values.TrimStartShape | crud_pages.py:117 | the left strip drops a whitespace-only prefix and keeps a suffix that does not start with whitespace |
| Values.TrimEndShape | crud_pages.py:117 | the right strip drops a whitespace-only suffix and keeps a prefix that does not end with whitespace |
| Values.StripShape | crud_widget.py:133 | `strip()` gives a window of the input, with only whitespace on both sides of it and no whitespace at either end of it |
| Values.StripEmptyIff | crud_widget.py:133-134 | a stripped text is empty exactly when the input is all whitespace |
| Values.StripIdempotent | crud_pages.py:117 | stripping twice equals stripping once |
| Values.IntOf | crud_pages.py:79 | `int()` of an integer is that integer; of NULL it raises |
| Values.NumTruncates | crud_pages.py:79 | `int()` of a DECIMAL or float truncates it: a number whose integer digits print as `str(i)` converts to `i` whatever its fraction digits, integral ones like `5.00` included |
| Values.Contains | crud_widget.py:44 | the substring test holds exactly when the pattern occurs at some position |
| Sql.PlaceholderListCount | crud_pages.py:220 | `", ".join(["%s"] * n)` holds exactly `n` placeholders |
| Sql.ColumnListCount | crud_pages.py:221 | back-quoted, comma-joined column names hold no placeholder when no name contains `%` |
| Sql.AssignmentsCount | crud_pages.py:242 | the `SET` list holds one placeholder per assigned column |
| Sql.InsertIntoCount | crud_pages.py:219-223 | an `INSERT` text holds exactly one placeholder per inserted column |
| Sql.UpdateSetCount | crud_pages.py:242-243 | an `UPDATE` text holds one placeholder per assigned column plus one for the key |
| Sql.DeleteFromCount | crud_pages.py:260 | a `DELETE` text holds exactly one placeholder |
| Sql.WherePkCount | crud_pages.py:208 | the `WHERE pk=%s` clause holds exactly one placeholder |
| Sql.OccurrencesJoin | crud_widget.py:225 | the placeholders of a joined list are those of its parts when the separator creates none |
| Grid.CellText | crud_pages.py:192-193 | a missing key and a NULL show the empty text; any other value shows `str(value)` |
| Grid.GridOf | crud_pages.py:190-193 | one row of cell texts per result row, one cell per column, each the text of that row's value |
| Grid.Labels | crud_pages.py:187 | one header label per column name, in order |
| Grid.TableWidget.constructor | crud_pages.py:143 | a new table widget has no rows, no columns and no items |
| Grid.TableWidget.Item | crud_pages.py:203 | `item(r, c)` exists exactly when an item was set at that position, and its text is the one stored there |
| Grid.TableWidget.HeaderItem | report_dashboard.py:113 | `horizontalHeaderItem(c)` exists exactly when a label was set for that column, and its text is that label |
| Grid.TableWidget.Clear | report_dashboard.py:84 | `clear()` removes every header and cell item and keeps the counts |
| Grid.TableWidget.SetRowCount | crud_pages.py:188 | `setRowCount(n)` keeps exactly the items in the first `n` rows |
| Grid.TableWidget.SetColumnCount | crud_pages.py:186 | `setColumnCount(n)` keeps exactly the headers and items in the first `n` columns |
| Grid.TableWidget.SetHorizontalHeaderLabels | crud_pages.py:187 | labels go to the existing columns, and surplus labels are dropped |
| Grid.TableWidget.SetItem | crud_pages.py:193 | `setItem` stores the text inside the table and ignores a position outside it |
| Grid.TableWidget.Populate | crud_pages.py:186-194 | after the fill loops the widget shows exactly the rows under the columns |
| Grid.TableWidget.FillRow | crud_pages.py:191-193 | the inner loop sets every cell of one row and no other |
| Grid.TableWidget.ShowsGrid | crud_pages.py:186-193 | a widget whose counts, headers and items match the rows shows those rows |
| Html.HtmlEscapeIsPerChar | report_dashboard.py:40-44 | the chain of four replacements, `&` first, escapes each character exactly once |
| Html.HtmlEscapeNoMarkup | report_dashboard.py:40-44 | no `<`, `>` or `"` survives the escaping |
| Html.HtmlEscapePlain | report_dashboard.py:40-44 | a text without the four special characters is unchanged |
| Html.HtmlEscapeRoundTrip | report_dashboard.py:40-44 | decoding the entities gives back the original text |
| Html.HtmlEscapeInjective | report_dashboard.py:40-44 | two different texts never escape to the same markup |
| Html.HtmlEscapeConcat | report_dashboard.py:40-44 | escaping distributes over concatenation |
| CrudPages.LoadUsersOptions | crud_pages.py:12-14 | one `(user_id, label)` option per row, in query order, with the label `id - nama (no_hp)` |
| CrudPages.LoadDriversOptions | crud_pages.py:16-23 | one option per driver row, labelled `id - nama (no_hp) \| plat_nomor` |
| CrudPages.LoadOrdersOptions | crud_pages.py:25-32 | one option per order row, labelled `id - pelanggan \| awal -> tujuan \| Rp biaya` |
| CrudPages.OptionLabelInjective | crud_pages.py:14 | an option label determines its id, because the label starts with the id and then a space |
| CrudPages.SameLabelSameId | crud_pages.py:23 | two options of one drop-down with the same caption carry the same id |
| CrudPages.DecimalHasNoSpace | crud_pages.py:14 | the printed id contains no space, so the label's first space ends the id |
| CrudPages.Names | crud_pages.py:209 | the field names, in form order |
| CrudPages.NamesLast | crud_pages.py:209 | the names of a longer form extend the names of its prefix |
| CrudPages.FirstIndex | crud_pages.py:66-68 | `options.index(s)` is the first position holding `s`, or -1 when `s` is absent |
| CrudPages.FirstIdIndex | crud_pages.py:77-81 | the first entry whose data equals the id, or -1 when none has it |
| CrudPages.EnumStart | crud_pages.py:62-68 | an enum starts on its initial value when that value is an option, and otherwise on the first option |
| CrudPages.FkStart | crud_pages.py:70-81 | a foreign-key combo starts on the first entry with the initial id, and otherwise on entry 0; it fails exactly when a non-null initial is no integer |
| CrudPages.InitialWidget | crud_pages.py:52-88 | the widget built for one field fits its kind; building fails exactly when a foreign-key combo with entries gets a non-null initial value that `int()` rejects |
| CrudPages.BuildWidgets | crud_pages.py:52-88 | the dialog opens exactly when every field's widget can be built |
| CrudPages.BuildWidgetsFits | crud_pages.py:52-88 | the dialog has one widget per field name and no other, and each fits its field |
| CrudPages.BuildWithoutInitial | crud_pages.py:47 | without an initial row (adding a record) the dialog always opens |
| CrudPages.ApplyEdit | crud_pages.py:43-90 | a user action changes at most the widget it targets |
| CrudPages.ApplyEditFits | crud_pages.py:43-90 | a user action keeps every widget fitting its field |
| CrudPages.ApplyEditsFits | crud_pages.py:43-90 | any sequence of actions keeps the widget set and the fit |
| CrudPages.FieldValue | crud_pages.py:110-117 | a float gives the spin value, an enum its current text, a foreign key its entry's id (it raises on an empty combo), text its stripped text |
| CrudPages.ValuesOf | crud_pages.py:103-118 | `values()` succeeds exactly when every field's widget is present and reads |
| CrudPages.ValuesOfKeys | crud_pages.py:103-118 | the form data has an entry under every field name and no other |
| CrudPages.ValuesOfAt | crud_pages.py:105-117 | with distinct names, each entry is what that field's widget reads |
| CrudPages.ValuesSucceedIff | crud_pages.py:103-118 | on a well-formed dialog, `values()` succeeds exactly when no foreign-key combo is empty |
| CrudPages.DialogDataSucceeds | crud_pages.py:43-118 | whatever the user does, an open dialog yields data for every field exactly when every foreign-key field has a choice |
| CrudPages.RecordDialog.constructor | crud_pages.py:43-48 | the dialog keeps its fields and widgets |
| CrudPages.RecordDialog.Open | crud_pages.py:43-90 | a dialog comes back exactly when the widgets can be built, and it holds those widgets |
| CrudPages.RecordDialog.MakeWidget | crud_pages.py:56-88 | the per-field branch builds the widget the reference definition describes |
| CrudPages.RecordDialog.Apply | crud_pages.py:43-90 | one user action updates the widgets as its reference definition says |
| CrudPages.RecordDialog.Exec | crud_pages.py:43-90 | the actions taken while the dialog runs update the widgets in order |
| CrudPages.RecordDialog.Values | crud_pages.py:103-118 | the loop gives the form data, or fails where a field fails |
| CrudPages.RecordDialog.PrefixFailure | crud_pages.py:105-117 | a field that fails makes the whole of `values()` fail |
| CrudPages.FirstRowOrEmpty | crud_pages.py:210 | `_fetch_row_by_pk` gives the first fetched row, or `{}` when none came back |
| CrudPages.Pick | crud_pages.py:219 | the insert parameters are the form data of the listed columns, in order |
| CrudPages.SelectByPk | crud_pages.py:206-209 | the lookup by primary key is bound to the selected key alone |
| CrudPages.InsertStatement | crud_pages.py:218-223 | the `INSERT` is issued exactly when the form data covers the insert columns; its parameters are their values |
| CrudPages.UpdateStatement | crud_pages.py:241-244 | the `UPDATE` parameters are the update columns' values followed by the key |
| CrudPages.DeleteStatement | crud_pages.py:260-261 | the `DELETE` is bound to the selected key alone |
| CrudPages.SelectByPkPlaceholders | crud_pages.py:208-209 | the lookup text holds exactly as many placeholders as parameters, namely one |
| CrudPages.InsertPlaceholders | crud_pages.py:220-223 | the `INSERT` text holds exactly as many placeholders as parameters |
| CrudPages.UpdatePlaceholders | crud_pages.py:242-244 | the `UPDATE` text holds exactly as many placeholders as parameters |
| CrudPages.DeletePlaceholders | crud_pages.py:260-261 | the `DELETE` text holds exactly one placeholder for its one parameter |
| CrudPages.ColumnsAreFields | crud_pages.py:124-130 | a page whose insert and update columns are its fields, and whose first view column is a key outside the form, is well configured |
| CrudPages.UsersPageOk | crud_pages.py:268-284 | the users page is well configured |
| CrudPages.DriversPageOk | crud_pages.py:286-306 | the drivers page is well configured, whatever the user options |
| CrudPages.AdminPageOk | crud_pages.py:308-324 | the admin page is well configured |
| CrudPages.OrdersPageOk | crud_pages.py:326-359 | the orders page is well configured, whatever the options |
| CrudPages.OrderColumnsDistinct | crud_pages.py:357-358 | the orders columns are distinct and exclude the key |
| CrudPages.OrderColumnsPercentFree | crud_pages.py:357-358 | no orders column contains `%` |
| CrudPages.PaymentsPageOk | crud_pages.py:361-389 | the payments page is well configured, whatever the order options |
| CrudPages.ConcretePagesOk | crud_pages.py:268-389 | all five concrete pages are well configured |
| CrudPages.RefreshField | crud_pages.py:173-180 | `_refresh_fk` replaces the options of the user, customer, driver and order foreign keys with the matching list, and leaves every other field alone |
| CrudPages.RefreshFields | crud_pages.py:172-180 | the refresh treats each field on its own and keeps the form's length |
| CrudPages.RefreshIdempotent | crud_pages.py:172-180 | refreshing twice with the same options equals refreshing once |
| CrudPages.RefreshKeepsConfig | crud_pages.py:172-180 | a refresh keeps the field names and a well-configured page well configured |
| CrudPages.AddIssuesInsert | crud_pages.py:212-227 | on a well-configured page an accepted add issues an `INSERT` exactly when no foreign-key combo is empty, with one placeholder per parameter and one parameter per insert column |
| CrudPages.EditIssuesUpdate | crud_pages.py:229-248 | on a well-configured page an accepted edit of a chosen row issues an `UPDATE` exactly when no foreign-key combo is empty; its last parameter is the selected key |
| CrudPages.CrudPage.constructor | crud_pages.py:131-170 | the page stores its configuration, refreshes the options and shows the view rows, or an empty table when the view query raised |
| CrudPages.CrudPage.RefreshFk | crud_pages.py:172-180 | the page's fields become the refreshed fields |
| CrudPages.CrudPage.LoadData | crud_pages.py:182-197 | the fields are refreshed; the table shows the rows under the view columns, or is left unchanged when the query raised |
| CrudPages.CrudPage.SelectedPk | crud_pages.py:199-204 | no key without a current row; otherwise the text of the row's first item, if there is one |
| CrudPages.CrudPage.SelectedPkAfterLoad | crud_pages.py:199-204 | after a load, the selected key is the key cell of the current row, and there is none outside the rows |
| CrudPages.CrudPage.AddRecord | crud_pages.py:212-227 | a cancelled dialog issues nothing; an accepted one issues the `INSERT` of the form data |
| CrudPages.CrudPage.EditRecord | crud_pages.py:229-248 | with no key chosen, or a cancelled dialog, nothing is issued; otherwise the lookup by key, then the `UPDATE` of the form data for that key |
| CrudPages.CrudPage.DeleteRecord | crud_pages.py:250-264 | a chosen and confirmed row issues the `DELETE` for its key; anything else issues nothing |
| CrudWidget.ColumnOf | crud_widget.py:33-47 | a catalogue row is a key column exactly when `Key` is `PRI`, auto-increment exactly when `Extra` contains `auto_increment` (never when it is NULL), and nullable exactly when `Null` is `YES` |
| CrudWidget.FetchColumns | crud_widget.py:25-49 | one column description per catalogue row, in order |
| CrudWidget.PkCol | crud_widget.py:146 | there is no key exactly when no column is a key; otherwise it is a key column of the table |
| CrudWidget.NonAuto | crud_widget.py:115-117 | the dialog's columns are exactly the non-auto columns |
| CrudWidget.Assigned | crud_widget.py:255-258 | the `UPDATE` assigns exactly the columns that are neither key nor auto-increment |
| CrudWidget.NonAutoSnoc | crud_widget.py:115-117 | a column added to the catalogue joins the form's columns, last, exactly when it is not auto-increment |
| CrudWidget.NonAutoAppend | crud_widget.py:115-117 | the form's columns keep the schema order: splitting the catalogue anywhere splits them at the same place |
| CrudWidget.AssignedSnoc | crud_widget.py:255-258 | a column added to the catalogue joins the assigned columns, last, exactly when it is neither key nor auto-increment |
| CrudWidget.AssignedAppend | crud_widget.py:255-258 | the assigned columns keep the schema order in the same way |
| CrudWidget.ColumnNames | crud_widget.py:218-221 | the names of the columns, in order |
| CrudWidget.PkNeverAssigned | crud_widget.py:255-256 | with distinct column names the key is never among the assigned columns |
| CrudWidget.NonAutoDistinct | crud_widget.py:115-122 | distinct column names stay distinct in the dialog |
| CrudWidget.Data | crud_widget.py:78-84 | a display request at a model index gives the cell's display text; any other request gives nothing |
| CrudWidget.DataShowsValue | crud_widget.py:82-83 | a cell reads empty exactly when it is NULL or empty, and an integer cell reads back as that integer |
| CrudWidget.HeaderData | crud_widget.py:86-91 | the horizontal header is the column name, and the vertical header is the one-based row number |
| CrudWidget.RowDict | crud_widget.py:202-206 | the selected row's dictionary has exactly the headers as its keys |
| CrudWidget.RowDictAt | crud_widget.py:204-205 | with distinct headers, each header maps to its own cell |
| CrudWidget.Prefill | crud_widget.py:120-121 | a line edit starts empty for a missing or NULL initial value, and otherwise with its text |
| CrudWidget.InitialInputs | crud_widget.py:115-123 | the dialog has one line edit per non-auto column, in order, prefilled from the initial row |
| CrudWidget.Typed | crud_widget.py:115-135 | typing into the named line edit changes its text and no other |
| CrudWidget.TypedAll | crud_widget.py:115-135 | typing never adds, removes or renames a line edit |
| CrudWidget.BlankIsNull | crud_widget.py:133-134 | an entry becomes NULL exactly when it is all whitespace, and is otherwise its stripped, non-empty text |
| CrudWidget.InputNames | crud_widget.py:132 | the line edits' column names, in order |
| CrudWidget.ValuesFromKeys | crud_widget.py:130-135 | `get_values` has an entry under every line edit's column and no other |
| CrudWidget.ValuesFromAt | crud_widget.py:130-135 | with distinct names, each column's value is what its own line edit holds |
| CrudWidget.FormValueAt | crud_widget.py:130-135 | each non-auto column's form value is the blank-or-stripped reading of its line edit |
| CrudWidget.RecordDialog.constructor | crud_widget.py:100-123 | the dialog holds the prefilled line edits of the non-auto columns |
| CrudWidget.RecordDialog.Exec | crud_widget.py:94-135 | while the dialog runs, the typing updates the line edits in order |
| CrudWidget.RecordDialog.GetValues | crud_widget.py:130-135 | the loop gives the form values of the current line edits |
| CrudWidget.Param | crud_widget.py:223 | `vals.get(name)` is the form value when there is one, and NULL otherwise |
| CrudWidget.ParamsOf | crud_widget.py:218-223 | one parameter per listed column, in order |
| CrudWidget.SelectedRow | crud_widget.py:198-206 | no row without a valid index; otherwise a dictionary over exactly the headers |
| CrudWidget.InsertParts | crud_widget.py:214-223 | the loop yields the column list, the placeholder list and the parameters of the non-auto columns |
| CrudWidget.SetParts | crud_widget.py:252-260 | the loop yields the assignments and the parameters of the assigned columns |
| CrudWidget.UpdateText | crud_widget.py:264 | the joined assignments form the `UPDATE ... WHERE pk=%s` text |
| CrudWidget.AddInsertsForm | crud_widget.py:208-226 | an accepted add inserts every non-auto column, each with the blank-or-stripped text of its line edit |
| CrudWidget.AddUntouchedIsNull | crud_widget.py:133-134 | an add with nothing typed inserts NULL into every column |
| CrudWidget.AddPlaceholders | crud_widget.py:225 | the `INSERT` text holds exactly one placeholder per parameter |
| CrudWidget.EditGuard | crud_widget.py:237-249 | an edit issues a statement exactly when the table has a key, a row is selected, the model has columns and the dialog is accepted |
| CrudWidget.DeleteGuard | crud_widget.py:276-294 | a delete issues a statement exactly when the table has a key, a row is selected, the model has columns and the user confirms |
| CrudWidget.EditTargetsSelectedRow | crud_widget.py:261-262 | the `UPDATE`'s last parameter is the key cell of the selected row |
| CrudWidget.DeleteTargetsSelectedRow | crud_widget.py:286-301 | the `DELETE`'s only parameter is the key cell of the selected row |
| CrudWidget.EditAssignsForm | crud_widget.py:252-262 | the key is never assigned, and each assigned column gets the blank-or-stripped text of its line edit |
| CrudWidget.EditPlaceholders | crud_widget.py:264 | the `UPDATE` text holds exactly one placeholder per parameter |
| CrudWidget.DeletePlaceholders | crud_widget.py:296-301 | the `DELETE` text holds exactly one placeholder for its one parameter |
| CrudWidget.EditPrefillsRow | crud_widget.py:120-121 | an edit dialog starts each line edit with the selected row's cell, or empty for NULL |
| CrudWidget.Crud.constructor | crud_widget.py:138-186 | the widget holds the catalogue's columns and their key, and a model of the fetched rows |
| CrudWidget.Crud.Refresh | crud_widget.py:192-196 | the model is replaced by the freshly fetched headers and rows; when the listing query raises, the model stays as it was |
| CrudWidget.Crud.CurrentRowDict | crud_widget.py:198-206 | the dictionary of the selected row, or none without a selection |
| CrudWidget.Crud.AddRow | crud_widget.py:208-235 | the add gives the `INSERT` of the non-auto columns with the form values, or nothing when cancelled |
| CrudWidget.Crud.EditRow | crud_widget.py:237-274 | the edit gives the `UPDATE` of the assigned columns keyed by the selected row, or nothing when a guard fails |
| CrudWidget.Crud.DeleteRow | crud_widget.py:276-306 | the delete gives the `DELETE` keyed by the selected row, or nothing when a guard fails |
| ReportDashboard.LoadKeepsComplete | report_dashboard.py:76-101 | a load keeps the view well formed and every column headed |
| ReportDashboard.LoadShowsRows | report_dashboard.py:89-99 | rows that came back are shown exactly, under the first row's keys, whatever was shown before; loading them again changes nothing |
| ReportDashboard.HeaderLines | report_dashboard.py:120-121 | one `<th>` line per header, in order |
| ReportDashboard.CellLines | report_dashboard.py:126-128 | one `<td>` line per cell, in order |
| ReportDashboard.Texts | report_dashboard.py:113 | the header texts, given that every column has a header item |
| ReportDashboard.BodyLinesCount | report_dashboard.py:124-129 | the body has `n + 2` lines per row for `n` columns |
| ReportDashboard.RowLinesAt | report_dashboard.py:125-129 | a row opens with `<tr>`, has its cells in order, and closes with `</tr>` |
| ReportDashboard.BodyLinesAt | report_dashboard.py:124-129 | row `r` occupies lines `r(n+2)` to `r(n+2)+n+1` of the body |
| ReportDashboard.ExportFrame | report_dashboard.py:116-131 | the document has `5 + n + rows(n+2)` lines: title, table open and `<tr>` first, then `</tr>` after the headers, and `</table>` last |
| ReportDashboard.ExportHeaderAt | report_dashboard.py:120-121 | column `c` is headed on line `3 + c` |
| ReportDashboard.ExportCellAt | report_dashboard.py:124-129 | cell `(r, c)` is on line `5 + n + r(n+2) + c` |
| ReportDashboard.Delimited | report_dashboard.py:117-128 | an escaped text between tags decodes to the text and holds no markup |
| ReportDashboard.ExportCarriesTitle | report_dashboard.py:117 | the title line carries the title, escaped |
| ReportDashboard.ExportCarriesHeader | report_dashboard.py:121 | each header line carries its header, escaped |
| ReportDashboard.ExportCarriesCell | report_dashboard.py:127-128 | each cell line carries its cell's text, escaped, and a cell without an item carries the empty text |
| ReportDashboard.ExportAfterLoad | report_dashboard.py:89-91 | after rows are loaded every column is headed, and the export's headers are the first row's keys |
| ReportDashboard.EmptyExport | report_dashboard.py:83-87 | an empty report exports its title and an empty table |
| ReportDashboard.ReportTab.constructor | report_dashboard.py:47-74 | a new tab keeps its title and query and shows the first load of its query |
| ReportDashboard.ReportTab.LoadData | report_dashboard.py:76-101 | the table shows the loaded rows; it is emptied for no rows and left as it was when the query raised |
| ReportDashboard.ReportTab.RowHtml | report_dashboard.py:124-129 | the row loop gives the row's lines |
| ReportDashboard.ReportTab.ExportPdf | report_dashboard.py:103-132 | the document is produced exactly when a path was chosen and every column has a header item; it is the newline-joined export lines of the table |
| ReportDashboard.DashboardReport.constructor | report_dashboard.py:160-285 | ten tabs, one per report title and query, each with its own freshly loaded table |
| ReportDashboard.DashboardReport.RefreshAll | report_dashboard.py:153-158 | every tab reloads with its own query's outcome, and a failing query leaves its tab as it was |

## Left out

- Database I/O and the MySQL driver: connections, cursors, commits and the
  server's own checks and errors. Every query outcome is a parameter, and
  every statement is returned rather than executed.
- The SQL text of the view queries, the option queries and the ten report
  queries. They are passed through as opaque strings.
- The reload after an executed statement, and the message boxes.
- Floating point: QDoubleSpinBox values, their range `0 .. 10**12` and their
  two decimals are not modelled. A spin box keeps its starting value as an
  opaque value.
- CrudPages.InitialWidget: `float()` raising on a non-numeric initial value of
  a float field is not modelled. Those columns come from numeric database
  columns.
- Values.IntOf: a float that prints in exponent notation (`1e+20`) converts in
  Python but counts as a failed conversion here. The foreign-key values these
  forms convert are integer ids.
- Values.IntOf: underscore digit groups and non-ASCII digits in `int()` of a
  string are not modelled.
- Qt layout, sizing and styling: `resizeColumnsToContents`, alternating colours,
  selection modes, edit triggers and button wiring.
- Printing the HTML through QTextDocument and QPrinter, and the file dialog.
  `ExportPdf` takes the chosen path as a parameter and returns the document.
- `DashboardReport`'s window title, layout, the `on_report` callback and
  `_open_report`. `hasattr(tab, "load_data")` always holds for these tabs, so
  it is not modelled.
- `report_windows.py`, `app_main.py` and `db.py` are not part of this model.
- Nothing about SQL injection is claimed. Table and column names come from the
  program itself or the catalogue; placeholder counts are proved only for
  identifiers without `%`.
- CrudWidget.Crud.constructor: a failing catalogue or first listing query
  makes the source's constructor raise, so no widget exists. The model's
  constructor takes both results as given.
- An option query that raises inside `_refresh_fk` is not modelled; the
  option rows are always given.
- CrudWidget.ValuesFromAt: duplicate column names in a dialog are not
  characterised. The per-column results are proved under distinct names.
- CrudWidget.Data: the source's `data()` assumes that the view only asks for
  indices inside the model. The model states that assumption as a requirement.
- CrudWidget.Crud.EditRow: the Python `if not row` test on the row dictionary
  is modelled as "the model has no columns". The dictionary built by
  `_current_row_dict` is empty exactly then.
- ReportDashboard.ReportTab.ExportPdf: a missing header item makes the source
  raise from `.text()` on None. The model returns no document in that case.
- The CRUD widget's statements carry no trailing `;`, while the hand-configured
  pages end theirs with `;`. Each module models the text its own source builds.
