/** The new-project dialog: its fields, their prefill when a project is
    being edited, and the check `submit_data` makes before it asks the
    controller to create a project. */
module NewProjectDialog {
  import opened PySemantics
  import opened DbModels
  import opened SqlStore
  import opened DbController
  import opened PmController

  /** The values the read-only priority box offers, in display order. */
  const PriorityChoices: seq<int> := [3, 2, 1]

  /** The priority the box shows when the dialog opens. */
  const DefaultPriority: int := 3

  /** The dialog's field contents, and the project it was opened to edit. */
  datatype Form = Form(
    name: string,
    priority: int,
    dueDate: string,
    imagePath: string,
    editing: Option<Project>)

  /** The dialog as it opens for a new project: empty fields, priority 3. */
  const BlankForm: Form := Form("", DefaultPriority, "", "", None)

  /** The dialog as it opens to edit `p`: every field prefilled from it. An
      absent or empty thumbnail path leaves the path field empty. */
  function EditForm(p: Project): (f: Form)
    ensures f.name == p.name && f.priority == p.priority && f.dueDate == p.dueDate
    ensures f.imagePath == p.thumbnailPath.GetOr("")
    ensures f.editing == Some(p)
  {
    var path := if p.thumbnailPath.Some? && StrTruthy(p.thumbnailPath.value) then p.thumbnailPath.value else "";
    Form(p.name, p.priority, p.dueDate, path, Some(p))
  }

  /** The dialog's title. */
  function Title(f: Form): (t: string)
    ensures f.editing.None? ==> t == "Create New Project"
    ensures f.editing.Some? ==> t == "Edit Project: " + f.editing.value.name
  {
    match f.editing
    case None => "Create New Project"
    case Some(p) => "Edit Project: " + p.name
  }

  /** Picking the `k`th entry of the priority box. */
  function ChoosePriority(f: Form, k: nat): (f': Form)
    requires k < |PriorityChoices|
    ensures f'.priority in PriorityChoices
    ensures f' == f.(priority := f'.priority)
  {
    f.(priority := PriorityChoices[k])
  }

  /** The arguments `submit_data` passes to `create_new_project`. */
  datatype CreateRequest = CreateRequest(name: string, priority: int, dueDate: string, imagePath: Option<string>)

  /** The check in `submit_data`: both the name and the due date must be
      non-empty. Neither is trimmed, and the due date's format is not
      checked. An empty path field becomes no path. */
  function Validate(f: Form): (r: Option<CreateRequest>)
    ensures r.Some? <==> f.name != "" && f.dueDate != ""
    ensures r.Some? ==>
      && r.value.name == f.name && r.value.priority == f.priority && r.value.dueDate == f.dueDate
      && (r.value.imagePath.None? <==> f.imagePath == "")
      && (r.value.imagePath.Some? ==> r.value.imagePath.value == f.imagePath)
  {
    if StrTruthy(f.name) && StrTruthy(f.dueDate) then
      Some(CreateRequest(f.name, f.priority, f.dueDate, StrOrNone(f.imagePath)))
    else
      None
  }

  /** The store after pressing the dialog's button, whether the dialog
      closed, and the controller's calls. */
  datatype Submitted = Submitted(db: Db, closed: bool, calls: seq<ControllerCall>)

  /** `submit_data`: on a valid form create the project and close the
      dialog; otherwise print an error and stay open. An error raised while
      creating, by the save or by the main window's redraw after it,
      propagates before the dialog is closed; `refreshRaises` says whether
      the redraw raises. Editing goes through the same path, so it creates a
      new project. */
  function SubmitData(f: Form, c: Controller, db: Db, refreshRaises: bool): (s: Submitted)
    ensures Validate(f).None? ==> s == Submitted(db, false, [])
    ensures Validate(f).Some? ==>
      && var q := Validate(f).value;
      && var o := CreateNewProject(c, db, q.name, q.priority, q.dueDate, q.imagePath, refreshRaises);
      && s.calls == o.calls
      && s.db == o.db
      && (s.closed <==> o.result.Ok?)
  {
    match Validate(f)
    case None => Submitted(db, false, [])
    case Some(q) =>
      var o := CreateNewProject(c, db, q.name, q.priority, q.dueDate, q.imagePath, refreshRaises);
      Submitted(o.db, o.result.Ok?, o.calls)
  }

  // ---------------------------------------------------------------------
  // Properties

  /** Every priority the box offers is one of 3, 2, 1, and the default is
      among them. */
  lemma PriorityChoicesAreLevels()
    ensures DefaultPriority in PriorityChoices
    ensures forall k | 0 <= k < |PriorityChoices| :: 1 <= PriorityChoices[k] <= 3
    ensures forall a, b | 0 <= a < b < |PriorityChoices| :: PriorityChoices[a] > PriorityChoices[b]
  {
  }

  /** A form opened blank and then filled in through its widgets always
      submits one of the offered priorities. */
  lemma BlankFormSubmitsOfferedPriority(name: string, dueDate: string, imagePath: string, k: nat)
    requires k < |PriorityChoices|
    ensures var f := ChoosePriority(BlankForm.(name := name, dueDate := dueDate, imagePath := imagePath), k);
      Validate(f).Some? ==> Validate(f).value.priority in PriorityChoices
  {
  }

  /** Nothing is created from a form missing its name or due date, and the
      dialog stays open. */
  lemma IncompleteFormCreatesNothing(f: Form, c: Controller, db: Db, refreshRaises: bool)
    requires f.name == "" || f.dueDate == ""
    ensures SubmitData(f, c, db, refreshRaises) == Submitted(db, false, [])
  {
  }

  /** Names are not trimmed: a name of blanks passes the check. */
  lemma BlankNameAccepted(dueDate: string)
    requires dueDate != ""
    ensures Validate(BlankForm.(name := " ", dueDate := dueDate)).Some?
  {
  }

  /** Submitting the form unchanged after opening it to edit a project whose
      fields are present saves a new project: on the schema the store gains
      a row under a new id, and the edited project's own id is not reused
      when it already named a stored row. The dialog closes unless the
      redraw after the save raises. */
  lemma EditSubmitCreatesNewProject(p: Project, c: Controller, db: Db, refreshRaises: bool)
    requires HasSchema(db)
    requires p.name != "" && p.dueDate != ""
    requires p.id.Some? && p.id.value in ProjectIds(db)
    ensures var s := SubmitData(EditForm(p), c, db, refreshRaises);
      && (s.closed <==> !(c.hasMainWindow && refreshRaises))
      && |s.calls| >= 1 && s.calls[0].SaveProjectCall?
      && var saved := s.calls[0].project;
      && saved.id.None?
      && |s.db.tables[ProjectTable].rows| == |db.tables[ProjectTable].rows| + 1
      && s.db.tables[ProjectTable].rows[|db.tables[ProjectTable].rows|].rowid != p.id.value
  {
    var f := EditForm(p);
    var q := Validate(f).value;
    var np := NewProject(q.name, q.priority, q.dueDate, q.imagePath);
    SaveProjectOnSchema(db, np);
    var t := db.tables[ProjectTable];
    assert p.id.value in RowIds(t.rows);
  }

  /** When the main window's redraw raises after a valid form was saved on
      the schema, the project is stored but the dialog stays open, so
      pressing Create again stores a second copy. */
  lemma RedrawFailureKeepsDialogOpen(f: Form, c: Controller, db: Db)
    requires HasSchema(db)
    requires Validate(f).Some?
    requires c.hasMainWindow
    ensures var s := SubmitData(f, c, db, true);
      && !s.closed
      && s.calls[|s.calls| - 1] == RefreshCall
      && ProjectIds(db) < ProjectIds(s.db)
      && HasSchema(s.db)
  {
    var q := Validate(f).value;
    SaveProjectOnSchema(db, NewProject(q.name, q.priority, q.dueDate, q.imagePath));
  }

  /** An edit form hands its project's thumbnail path back unchanged when it
      is present and non-empty, and no path otherwise. */
  lemma EditFormKeepsThumbnail(p: Project)
    requires p.name != "" && p.dueDate != ""
    ensures var q := Validate(EditForm(p)).value;
      q.imagePath == (if p.thumbnailPath == Some("") then None else p.thumbnailPath)
  {
  }
}
