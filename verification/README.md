# ProMan, modelled in Dafny

ProMan is a small desktop project tracker written in Python with Tkinter
and SQLite. A project has a name, a priority (3, 2 or 1), a due date and
optionally a thumbnail. Each project keeps dated log entries, and log text
may refer to image attachments with inline markers `[ref:<digits>]`.

This model covers the core logic behind the windows:

- the records and their defaults;
- the database manager's schema, its single statement runner and
  `save_project`, run against an in-memory stand-in for SQLite;
- the controller's create, delete and dialog flows, with the calls they
  make on other objects recorded in order;
- the new-project dialog's prefill and validation;
- the main window's selection state, its buttons and its priority labels;
- the detail window: log selection state, the `[ref:N]` segmentation of
  log text, the mouse-wheel scroll step and attachment highlighting.

Everything is immutable datatypes and pure functions, one module per
source file:

| module | file | source |
|---|---|---|
| `PySemantics` | `py_semantics.dfy` | Python's `Optional`, raised exceptions, truthiness, `//`, and `int()` truncation |
| `DbModels` | `db_models.dfy` | `db_models.py` |
| `SqlStore` | `sql_store.dfy` | the SQLite behaviour the schema relies on |
| `DbController` | `db_controller.dfy` | `db_controller.py` |
| `PmController` | `pm_controller.dfy` | `pm_controller.py` |
| `NewProjectDialog` | `new_project_dialog.dfy` | `gui/new_project_dialog.py` |
| `MainWindow` | `main_window.dfy` | `gui/main_window.py` |
| `RefMarkers` | `ref_markers.dfy` | `insert_text_with_links` in `gui/project_detail_window.py` |
| `ProjectDetailWindow` | `project_detail_window.dfy` | the rest of `gui/project_detail_window.py` |

Some store operations are called but not defined in the code:

- `get_projects_sorted`, `delete_project`;
- `get_dates_for_project`, `get_logs_for_project_date`;
- `save_log_text`, `delete_date_logs`.

They get no semantics here. An operation that uses one of them takes the
query's result as a parameter, or takes a flag saying whether the call
raised, and records the call it makes.

User input is also a parameter: clicks, the answer to a confirmation box,
and the text typed into a field.

### Modelling choices

- **SQLite.**
  - A table is its declared columns plus its rows in insertion order.
  - A row stores one value per column, in column order.
  - An INSERT checks, in SQLite's order: that the table exists, then that the
    named columns exist, then the rowid's type, then NOT NULL, then the
    rowid's uniqueness.
  - A row inserted without a rowid gets one more than the largest rowid in
    use, or 1 in an empty table.
  - `FOREIGN KEY` clauses are not enforced, because SQLite leaves them off by
    default.
- **Segmentation.**
  - `re.finditer(r'\[ref:(\d+)\]', content)` is written out as a hand-made
    scanner: at each position it tries the literal `[ref:`, then a run of
    digits, then `]`.
  - After a match the scanner goes on over the text after the match, as a
    fresh scan. The pattern has no anchors and never looks before a match's
    start, so this finds the same matches as resuming at the match's end.
  - `SegmentationUnique` proves that the scanner's split is the only
    alternating plain/link split of the text whose plain parts hide no
    marker. The scanner's result is thereby independent of how it is
    computed.
- **`on_mousewheel`.**
  - `-1 * delta * 0.5` followed by `int()` is exactly `TruncDiv(-delta, 2)`,
    which truncates toward zero.
  - `delta // abs(delta)` is floor division.
- **Link ids.**
  - `highlight_media` converts a link's digits with `int()`, which refuses
    a string of more than 4300 digits, leading zeros included.
  - Such a link is still drawn as a link, but clicking it highlights
    nothing (`OverlongLinkIgnored`).
- **Truthiness.**
  - `open_project_clicked` and `edit_project_clicked` test `if
    self.selected_project_id:`, so project id 0 counts as no selection.
  - `delete_project_clicked` tests `is not None`.
  - `ZeroIdAsymmetry` states the difference.
- **The dialog's button.**
  - The dialog computes a confirm label, "Update" or "Create", but never
    uses it: the button always reads "Create".
  - Editing goes through `create_new_project`, so submitting an edit adds a
    new project (`EditSubmitCreatesNewProject`).
- **The main window's tiles.**
  - A tile whose project has no id can still be selected. That turns the
    buttons on, but each button then acts as if nothing were selected
    (`UnsavedTileEnablesIdleButtons`).
- **Raised errors.**
  - A store call that raises ends its handler at that call: later steps,
    such as a success status or a reload, do not happen.
  - `create_new_project` can raise after the save has gone through, when
    the main window's redraw queries the store again. The dialog then stays
    open over a project that is already stored (`RedrawFailureKeepsDialogOpen`).
  - `refresh_project_list` drops the selection and turns the buttons off
    before it queries, so even a failed redraw leaves nothing selected
    (`ClickDelete`).
- **The schema and the records.**
  - The schema has no `thumbnail_path` column for projects and no
    `project_id` or `is_global` columns for attachments, although the
    records carry those fields.
  - `save_project` stores only the name, priority and due date
    (`SaveProjectOnSchema`).
  - An INSERT that names any of the missing columns is refused
    (`SchemaLacksRecordFields`).

## Model

| member | source | states |
|---|---|---|
| `PySemantics.TruncDiv` | gui/project_detail_window.py:141-143 | `int()` of a halved integer: the magnitude is the floor of the halved magnitude and the sign is the operand's, i.e. truncation toward zero |
| `PySemantics.StrOrNone` | gui/new_project_dialog.py:118 | `s or None`: none exactly for the empty string, otherwise the string itself |
| `RefMarkers.MatchAtSound` | gui/project_detail_window.py:195-197 | a match found at a position spans exactly one complete `[ref:<digits>]` marker |
| `RefMarkers.MatchAtComplete` | gui/project_detail_window.py:195-197 | a complete marker starting at a position is the match found there, ending where the marker ends |
| `RefMarkers.DigitRunEndSpec` | gui/project_detail_window.py:195 | the digit run `\d+` consumes digits and stops at the first non-digit or at the end of the text |
| `RefMarkers.LinkTextIsMarker` | gui/project_detail_window.py:201-203 | the text `[ref:N]` rebuilt from a captured digit string N is itself a complete marker |
| `RefMarkers.MarkerIsLinkText` | gui/project_detail_window.py:201-205 | the link inserted for a match, `[ref:` + group 1 + `]`, is exactly the matched text, with a non-empty digit group |
| `RefMarkers.NoMatchMeansMarkerFree` | gui/project_detail_window.py:197-198 | text the scanner passes over without a match contains no marker anywhere inside it |
| `RefMarkers.ScanValid` | gui/project_detail_window.py:196-212 | the loop emits alternating plain/link pieces that rebuild the text, with marker-free plain pieces and non-empty digit links |
| `RefMarkers.ScanFirstMarker` | gui/project_detail_window.py:197-211 | for `p + [ref:N] + r` with `p` marker-free, the first pieces are `p` and the link N, and the rest are the pieces of `r` |
| `RefMarkers.SegmentationUnique` | gui/project_detail_window.py:195-212 | any alternating split of a text into marker-free plain pieces and digit links that rebuilds it is the scanner's split: leftmost, non-overlapping |
| `RefMarkers.InsertTextWithLinks` | gui/project_detail_window.py:194-212 | the inserted pieces concatenate to the content; they alternate and start and end plain; no plain piece hides a marker; each link reads `[ref:N]` with tag `ref_N`; marker-free content is one plain piece |
| `DbModels.NewProject` | db_models.py:7-13 | a new project carries the given fields; thumbnail path defaults to none and id is none |
| `DbModels.NewLogEntry` | db_models.py:16-20 | a new log entry carries the given fields and no id |
| `DbModels.NewAttachment` | db_models.py:23-29 | an attachment always has its file path and defaults to no log, no project, not global, not a thumbnail, no id |
| `SqlStore.NextRowId` | db_controller.py:16 | the rowid given to a row inserted without one is 1 in an empty table and otherwise one more than the largest rowid in use, so it is fresh, and it is at least 1 when no rowid in use is negative |
| `SqlStore.CreateTable` | db_controller.py:15 | `CREATE TABLE IF NOT EXISTS` adds the table only when absent and leaves every existing table as it was |
| `SqlStore.InsertRow` | db_controller.py:52-54 | an INSERT either raises, naming the missing table, unknown column or NULL NOT NULL column, or appends exactly one row under a fresh rowid; a well-formed insert without a rowid always succeeds with the next rowid |
| `DbController.ExecuteSql` | db_controller.py:48-57 | a statement's error reaches the caller unchanged and leaves the store as it was; success returns the engine's store and cursor |
| `DbController.InitializeDatabase` | db_controller.py:10-44 | initialisation never fails, adds exactly the missing schema tables empty with the schema's columns, and keeps existing tables |
| `DbController.InitializeIdempotent` | db_controller.py:42-44 | initialising twice is initialising once |
| `DbController.InitializeFreshHasSchema` | db_controller.py:14-41 | on an empty store, initialisation yields exactly the three schema tables |
| `DbController.SaveProjectInsert` | db_controller.py:60-61 | the INSERT names exactly the project table's name, priority and due date columns, with no NULL value |
| `DbController.SaveProject` | db_controller.py:47-64 | a save raises exactly when its INSERT raises, with that same error and the store unchanged; or returns the project with an id no stored project had and appends exactly one project row; no other table changes |
| `DbController.SaveProjectOnSchema` | db_controller.py:59-63 | against the schema a save always succeeds, under the next rowid, storing only name, priority and due date |
| `DbController.SavedIdIsPositive` | db_controller.py:59-63 | on a schema whose project rowids are non-negative, the id a save assigns is at least 1, never the 0 that the main window's truthiness test treats as no selection, and the rowids stay non-negative |
| `DbController.ProjectRequiresNameAndPriority` | db_controller.py:17-18 | a project insert without a name or a priority raises and changes nothing |
| `DbController.LogRequiresContent` | db_controller.py:28 | a log insert without content raises and changes nothing |
| `DbController.AttachmentRequiresFilePath` | db_controller.py:37 | an attachment insert without a file path raises and changes nothing |
| `DbController.SchemaLacksRecordFields` | db_controller.py:14-41 | inserting a project's thumbnail path or an attachment's project link or global flag raises a no-such-column error |
| `PmController.AttachMainWindow` | gui/main_window.py:15-16 | after the main window is built, both the window and the root are registered on the controller |
| `PmController.GetAllProjectsSorted` | pm_controller.py:17-19 | the list the window draws is the store's result, in the store's order, unchanged |
| `PmController.CreateNewProject` | pm_controller.py:21-35 | the save is the first call; the project is stored iff the save succeeded, and then the store gains ids; a redraw follows exactly once iff it was stored and a main window is registered; a save error is the save's own error and leaves the store unchanged; a redraw error propagates with the project already stored; whenever the project was stored the store is exactly the one `save_project` left, so no other row or table changes; a returned project has the given fields and a fresh id, the only one added |
| `PmController.DeleteProjectFlow` | pm_controller.py:37-45 | the deletion is requested first and every later call is a redraw; a redraw follows, once, iff the deletion returned and a main window is registered; the flow raises iff the deletion or the redraw raised |
| `PmController.OpenNewProjectDialog` | pm_controller.py:48-56 | a dialog opens iff a root window is registered, and only one |
| `PmController.DetachedControllerIsSilent` | pm_controller.py:8-11 | before a main window registers, nothing redraws and no dialog opens |
| `PmController.AttachedCreateRefreshes` | pm_controller.py:29-33 | with a main window, a create on the schema stores the project and is exactly a save followed by one redraw; it returns iff the redraw does not raise |
| `PmController.AttachedDeleteRefreshes` | pm_controller.py:37-45 | with a main window, a deletion that returns is exactly a delete followed by one redraw, and the flow raises iff the redraw does |
| `PmController.AttachedOpensDialog` | pm_controller.py:48-56 | with a main window attached, asking for the dialog opens exactly one |
| `PmController.CreatedProjectIsStored` | pm_controller.py:23-35 | on the schema the new last row holds the given name, priority and due date under the next rowid, and a returned project carries that rowid |
| `NewProjectDialog.EditForm` | gui/new_project_dialog.py:85-90 | the edit dialog's fields are the project's name, priority and due date, and its thumbnail path or empty |
| `NewProjectDialog.Title` | gui/new_project_dialog.py:16-19 | the title names the project being edited, else reads "Create New Project" |
| `NewProjectDialog.ChoosePriority` | gui/new_project_dialog.py:42-48 | picking from the read-only box yields one of the offered priorities and changes no other field |
| `NewProjectDialog.Validate` | gui/new_project_dialog.py:114-120 | a create request is made iff both name and due date are non-empty, carrying the fields unchanged and an empty path as none |
| `NewProjectDialog.SubmitData` | gui/new_project_dialog.py:114-124 | an invalid form calls nothing and stays open; a valid one makes exactly the controller's create calls and closes iff the create returned, so a raising save or redraw leaves it open |
| `NewProjectDialog.PriorityChoicesAreLevels` | gui/new_project_dialog.py:41-48 | the box offers 3, 2, 1 in descending order and opens on 3 |
| `NewProjectDialog.BlankFormSubmitsOfferedPriority` | gui/new_project_dialog.py:42-48 | a new-project form filled through its widgets submits one of the offered priorities |
| `NewProjectDialog.IncompleteFormCreatesNothing` | gui/new_project_dialog.py:120-124 | a form missing its name or due date creates nothing and leaves the dialog open |
| `NewProjectDialog.BlankNameAccepted` | gui/new_project_dialog.py:115-120 | names are not trimmed: a blank name passes the check |
| `NewProjectDialog.EditSubmitCreatesNewProject` | gui/new_project_dialog.py:114-122 | submitting an edit form saves a project without an id, appending a new row under a different id instead of updating the edited one; the dialog closes unless the redraw raises |
| `NewProjectDialog.RedrawFailureKeepsDialogOpen` | gui/new_project_dialog.py:114-122 | when the main window's redraw raises after a valid save, the project is stored but the dialog stays open |
| `NewProjectDialog.EditFormKeepsThumbnail` | gui/new_project_dialog.py:89-90 | an edit submits the project's own thumbnail path, except that an empty one becomes none |
| `MainWindow.Refresh` | gui/main_window.py:184-205 | a redraw shows one solid tile per project in the order fetched, selects nothing and disables all three buttons |
| `MainWindow.SelectProject` | gui/main_window.py:151-170 | a click selects the tile's project id, sinks that tile alone, enables the three buttons, and keeps the window invariant |
| `MainWindow.OpenProjectClicked` | gui/main_window.py:129-131 | Open opens the detail view iff the selected id is present and non-zero, and is silent otherwise |
| `MainWindow.EditProjectClicked` | gui/main_window.py:133-137 | Edit opens the edit dialog iff the selected id is present and non-zero, and warns otherwise |
| `MainWindow.DeleteProjectClicked` | gui/main_window.py:172-179 | Delete requests deletion of the selected id iff an id is selected and the user confirms; it warns iff nothing is selected; a refused confirmation does nothing |
| `MainWindow.ClickDelete` | gui/main_window.py:172-202 | the Delete handler through the controller's flow keeps the window's invariant; the calls and the raised error are the flow's; the selection is dropped iff nothing was selected or a redraw was requested, and the window is otherwise unchanged; a redraw turns every button off and draws one tile per fetched project, none if the query raised |
| `MainWindow.FailedDeleteKeepsSelection` | gui/main_window.py:172-177 | a declined delete, or one the store refuses, leaves the window exactly as it was, and only the refused one raises |
| `MainWindow.PriorityText` | gui/main_window.py:254 | a tile's priority caption is one of HIGH, MEDIUM, LOW, N/A, and N/A exactly for priorities outside 1 to 3 |
| `MainWindow.PriorityLabelRoundTrip` | gui/main_window.py:254 | 3, 2, 1 are labelled HIGH, MEDIUM, LOW and read back; every other priority is labelled N/A |
| `MainWindow.OfferedPrioritiesDistinctLabels` | gui/main_window.py:254 | the three offered priorities get distinct labels, none of them N/A |
| `MainWindow.AtMostOneSunken` | gui/main_window.py:154-159 | at most one tile is drawn sunken |
| `MainWindow.ButtonsEnabledIffSelected` | gui/main_window.py:161-168 | when every shown project has an id, the buttons are enabled exactly while a project is selected |
| `MainWindow.UnsavedTileEnablesIdleButtons` | gui/main_window.py:273-277 | clicking a tile whose project has no id enables the buttons, yet Open does nothing and Edit and Delete warn |
| `MainWindow.ZeroIdAsymmetry` | gui/main_window.py:130-174 | with id 0 selected, Open does nothing and Edit warns, but Delete requests deletion of project 0 |
| `MainWindow.SelectAfterRefresh` | gui/main_window.py:184-205 | after a redraw, clicking tile i selects the i-th fetched project; a further redraw forgets the click |
| `MainWindow.ConfirmedDeleteClearsSelection` | gui/main_window.py:172-202 | with the controller attached, a confirmed delete that the store accepts deletes exactly the selected project and redraws, leaving nothing selected and every button off even if the redraw's query raises; the click raises iff that query does |
| `ProjectDetailWindow.LoadDates` | gui/project_detail_window.py:168-176 | reloading lists the fetched dates with none highlighted; with no dates the text is emptied and no log is current, otherwise both are kept |
| `ProjectDetailWindow.Open` | gui/project_detail_window.py:18-29 | a new detail window lists the project's dates with empty text and no current log |
| `ProjectDetailWindow.OnDateSelected` | gui/project_detail_window.py:178-192 | with no highlighted date nothing happens; otherwise the first log fetched for the date becomes current and its content is shown, or no log is current if none; the content is inserted as the link segmentation of `insert_text_with_links`; the project and the date list are kept |
| `ProjectDetailWindow.SaveTextClicked` | gui/project_detail_window.py:265-273 | the text is written back once to the current log iff one is current; success is reported iff that write returns, and a raising write leaves the window unchanged; with no current log only an error status is shown |
| `ProjectDetailWindow.DeleteDateClicked` | gui/project_detail_window.py:285-297 | without a highlighted date only a warning; without confirmation nothing; a raising deletion reloads and clears nothing; otherwise the date's logs are deleted, the dates reloaded, the text emptied and no log is current; the project never changes |
| `ProjectDetailWindow.Sign` | gui/project_detail_window.py:139 | `delta // abs(delta)` is the sign of a non-zero delta |
| `ProjectDetailWindow.OnMousewheel` | gui/project_detail_window.py:130-143 | no scroll only for a wheel event with zero delta; a delta of 120 or more scrolls 4 units against its sign; a smaller one scrolls half its magnitude, rounded toward zero, against its sign |
| `ProjectDetailWindow.ButtonEventsScrollZero` | gui/project_detail_window.py:104-105 | the Button-4/5 bindings' unit deltas scroll 0 units |
| `ProjectDetailWindow.WheelStepBounded` | gui/project_detail_window.py:138-143 | a wheel step is at most 59 units, exactly 4 for a full notch and beyond |
| `ProjectDetailWindow.WheelStepNotMonotone` | gui/project_detail_window.py:138-143 | a delta of 119 scrolls 59 units but a full notch of 120 scrolls only 4, in either direction |
| `ProjectDetailWindow.WheelAntisymmetric` | gui/project_detail_window.py:138-143 | opposite deltas scroll opposite amounts |
| `ProjectDetailWindow.ParseDecimal` | gui/project_detail_window.py:218 | the attachment id parses exactly when it is a non-empty digit string of at most 4300 digits, to the digits' decimal value |
| `ProjectDetailWindow.ParseStr` | gui/project_detail_window.py:218 | parsing the decimal rendering of n gives n back when the rendering has at most 4300 digits, and fails otherwise |
| `ProjectDetailWindow.LeadingZeroIgnored` | gui/project_detail_window.py:218-219 | leading zeros do not change the digits' value, so `[ref:007]` and `[ref:7]` name the same attachment; but they count toward the 4300-digit limit, so one more zero can make a parsable id fail |
| `ProjectDetailWindow.HighlightMedia` | gui/project_detail_window.py:215-247 | when the id parses and names a shown attachment exactly that frame is highlighted and all others reset; otherwise, including when `int()` raises, nothing changes |
| `ProjectDetailWindow.LinksParse` | gui/project_detail_window.py:201-207 | every link shown carries a non-empty digit string, which parses exactly when it has at most 4300 digits |
| `ProjectDetailWindow.OverlongLinkIgnored` | gui/project_detail_window.py:215-247 | a well-formed link of 4300 zeros then 7 is worth 7, yet clicking it highlights nothing, since `int()` raises and the error is swallowed |
| `ProjectDetailWindow.AtMostOneHighlighted` | gui/project_detail_window.py:215-228 | a click keeps the invariant that at most one frame is highlighted, whatever was highlighted before |
| `ProjectDetailWindow.SelectThenSaveWritesBack` | gui/project_detail_window.py:189-192 | selecting a date and saving writes the first log's content back to that log unchanged, markers included |
| `ProjectDetailWindow.NoSaveAfterDelete` | gui/project_detail_window.py:293-296 | after a date is deleted, saving writes nothing |
| `ProjectDetailWindow.NoSaveOnEmptyProject` | gui/project_detail_window.py:174-176 | a window on a project without dates cannot save |
| `ProjectDetailWindow.ReloadDropsHighlight` | gui/project_detail_window.py:168-176 | reloading a non-empty date list keeps the current log but drops the highlight, so a date selection event does nothing |

## Left out

- Tkinter layout, styles, fonts, the splash screen and the event loop (`main.py`, every widget construction). This is presentation only. The status line's text is kept, but the timers that clear it are not.
- Image loading and display, and opening files with the system viewer (`PhotoImage`, `subsample`, `os.path.exists`, `subprocess`, `os.startfile`). These are file I/O and foreign calls. `load_media` appears only as the id → frame map that `HighlightMedia` takes.
- The scroll fraction `highlight_media` computes to jump to a frame, and its two-second timer that removes the highlight. These are floating point and UI timing.
- `browse_image` and `add_media_clicked`: file dialogs. Their result is just the path field's contents, which is a parameter.
- `add_entry_clicked`. It reads the clock and two input boxes, then calls the undefined `add_log_entry` and reloads the dates, as `LoadDates` models.
- `_on_mousewheel_propagate` and `_activate_scroll_binding`. These are widget-tree walks that decide whether `on_mousewheel` runs at all.
- `gui/attachment_manager.py`. It is a thin view over controller methods that are not defined. The controller's `open_project_detail_window`, `open_edit_project_dialog` and `open_attachment_manager` are not defined either; they appear only as the `Reaction` a button press produces.
- Undefined store operations (`get_projects_sorted`, `delete_project`, `get_dates_for_project`, `get_logs_for_project_date`, `save_log_text`, `delete_date_logs`, `add_log_entry`, `add_attachment`). They get no semantics; their results are parameters. Whether `delete_project`, `save_log_text`, `delete_date_logs` and the redraw's `get_projects_sorted` raise is a parameter too (`deleteRaises`, `saveRaises`, `refreshRaises`, or `None` for the fetched list).
- `ProjectDetailWindow.LoadDates` and `OnDateSelected`: the queries `get_dates_for_project` and `get_logs_for_project_date` are taken to return. A raising query, including the reload inside `delete_date_clicked`, is not modelled.
- `EditText`: text typed into the log area is kept as one untagged plain piece. Tk's handling of tags around typed text is not modelled.
- `RefMarkers.IsDigit`: Python's `\d` also matches non-ASCII decimal digits. The model accepts only `0`-`9`.
- `ProjectDetailWindow.ParseDecimal`: `int()` also accepts signs, surrounding whitespace, underscores and non-ASCII digits. The model parses only ASCII digit strings, which is everything a link can carry. The 4300-digit limit is CPython's default from 3.11 on and in 3.10.7, 3.9.14, 3.8.14 and 3.7.14. Older interpreters have no limit, and a program can raise or lift it with `sys.set_int_max_str_digits`; neither is modelled.
- `SqlStore.NextRowId`: SQLite falls back to a random unused rowid once the largest rowid is 2^63 - 1. The model always uses max + 1, with unbounded integers.
- `SqlStore.InsertRow`: a text value for an `INTEGER PRIMARY KEY` is always refused, although SQLite first tries to convert text that looks like an integer. A column named twice in one INSERT keeps its first value rather than raising. Neither case arises from this code.
- `SqlStore.Execute`: each call opens and commits its own connection, and connections, cursors, file paths and concurrent writers are not modelled. A statement is atomic here.
- `DbController.ExecuteSql`: the error message printed before re-raising is left out.
- Console output: every `print` is left out, since it changes no state. These are the schema message (db_controller.py:45), the save message (db_controller.py:64), the selection message (gui/main_window.py:170), the image load error (gui/main_window.py:229), the form error (gui/new_project_dialog.py:124) and the missing-root error (pm_controller.py:56).
- `ProjectDetailWindow.OnDateSelected` and `DeleteDateClicked` take as a precondition that the highlighted index is within the listed dates. A listbox selection always is.
- Errors outside `sqlite3.Error`, for example out of memory or an interrupt. One of them is reachable from the form's values: binding an integer outside the signed 64-bit range raises `OverflowError`, not a `sqlite3.Error`. So the success that `DbController.SaveProjectOnSchema`, `DbController.SavedIdIsPositive` and `PmController.CreatedProjectIsStored` promise for every priority holds only for priorities in that range. The dialog only offers 3, 2 and 1. A missing database directory is not one of them: `sqlite3.connect` then raises an `OperationalError` inside the `try` of `_execute_sql`, which is printed and re-raised like any other store error.
- `DbController.InitializeDatabase`: "initialisation never fails" assumes the store can be opened and written. A database file that cannot be created or opened, or a read-only one, makes the first `CREATE TABLE` raise; the model's store has no such state.
