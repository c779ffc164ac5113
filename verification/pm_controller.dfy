/** The controller between the windows and the database manager. It builds
    project records, saves them, and asks the registered main window to
    redraw its list after every change. Calls it makes on collaborators are
    recorded, in order, as a trace. */
module PmController {
  import opened PySemantics
  import opened DbModels
  import opened SqlStore
  import opened DbController

  /** Which references have been registered on the controller. Both start
      out unset; the main window sets them when it is built. */
  datatype Controller = Controller(hasMainWindow: bool, hasRoot: bool)

  const NewController: Controller := Controller(false, false)

  /** One call the controller makes on a collaborator. */
  datatype ControllerCall =
    | SaveProjectCall(project: Project)
    | DeleteProjectCall(projectId: int)
    | RefreshCall
    | OpenDialogCall

  /** The main window registers itself and its root window. */
  function AttachMainWindow(c: Controller): (c': Controller)
    ensures c'.hasMainWindow && c'.hasRoot
  {
    c.(hasMainWindow := true, hasRoot := true)
  }

  /** `get_all_projects_sorted`: whatever the store's query returned, passed
      on as it is. */
  function GetAllProjectsSorted(fetched: seq<Project>): (r: seq<Project>)
    ensures r == fetched
  {
    fetched
  }

  /** Why `create_new_project` raised: the save itself failed, or the save
      went through and the main window's redraw, which queries the store
      again, failed afterwards. */
  datatype CreateError = SaveFailed(cause: SqlError) | RefreshFailed

  /** The store after `create_new_project`, its outcome, and its calls. */
  datatype CreateOutcome = CreateOutcome(db: Db, result: Result<Project, CreateError>, calls: seq<ControllerCall>)
  {
    /** Whether the new project reached the store, whatever happened after. */
    predicate Stored()
    {
      result.Ok? || result.error.RefreshFailed?
    }
  }

  /** `create_new_project`: build the record, save it, then ask the main
      window (if one is registered) to redraw. An error from the save
      propagates before any redraw and leaves the store unchanged. The
      redraw's own query is a store operation this model does not define;
      `refreshRaises` says whether it raised, in which case the error
      propagates with the new project already stored. */
  function CreateNewProject(c: Controller, db: Db, name: string, priority: int, dueDate: string, imagePath: Option<string>, refreshRaises: bool): (o: CreateOutcome)
    ensures |o.calls| >= 1 && o.calls[0] == SaveProjectCall(NewProject(name, priority, dueDate, imagePath))
    ensures RefreshCall in o.calls <==> o.Stored() && c.hasMainWindow
    ensures forall k | 1 <= k < |o.calls| :: o.calls[k] == RefreshCall
    ensures |o.calls| <= 2
    ensures o.Stored() <==> SaveProject(db, NewProject(name, priority, dueDate, imagePath)).result.Ok?
    ensures !o.Stored() ==> o.db == db
    ensures o.result.Raised? && o.result.error.SaveFailed? ==>
      o.result.error.cause == SaveProject(db, NewProject(name, priority, dueDate, imagePath)).result.error
    ensures o.Stored() ==> o.db == SaveProject(db, NewProject(name, priority, dueDate, imagePath)).db
    ensures o.Stored() ==> ProjectIds(db) < ProjectIds(o.db)
    ensures o.result.Raised? && o.result.error.RefreshFailed? <==> o.Stored() && c.hasMainWindow && refreshRaises
    ensures o.result.Ok? ==>
      && var q := o.result.value;
      && q.name == name && q.priority == priority && q.dueDate == dueDate
      && q.thumbnailPath == imagePath
      && q.id.Some? && q.id.value !in ProjectIds(db)
      && ProjectIds(o.db) == ProjectIds(db) + {q.id.value}
  {
    var p := NewProject(name, priority, dueDate, imagePath);
    var s := SaveProject(db, p);
    match s.result
    case Raised(e) => CreateOutcome(db, Raised(SaveFailed(e)), [SaveProjectCall(p)])
    case Ok(q) =>
      assert ProjectIds(s.db) == ProjectIds(db) + {q.id.value} by {
        var t := db.tables[ProjectTable];
        var row := Row(q.id.value, Cells(t.columns, SaveProjectInsert(p).assignments, q.id.value));
        assert s.db.tables[ProjectTable].rows == t.rows + [row];
        assert forall r | r in t.rows + [row] :: r in t.rows || r == row;
      }
      if c.hasMainWindow && refreshRaises then
        CreateOutcome(s.db, Raised(RefreshFailed), [SaveProjectCall(p), RefreshCall])
      else
        CreateOutcome(s.db, Ok(q), [SaveProjectCall(p)] + (if c.hasMainWindow then [RefreshCall] else []))
  }

  /** `delete_project_flow`. The deletion and the redraw's query are store
      operations this model does not define; `deleteRaises` and
      `refreshRaises` say whether each raised. The deletion is requested
      first; the redraw follows only when it returned and a main window is
      registered, and the flow raises exactly when one of the calls it made
      raised. */
  function DeleteProjectFlow(c: Controller, projectId: int, deleteRaises: bool, refreshRaises: bool): (r: Result<seq<ControllerCall>, seq<ControllerCall>>)
    ensures var calls := if r.Ok? then r.value else r.error;
      && |calls| >= 1 && calls[0] == DeleteProjectCall(projectId)
      && (RefreshCall in calls <==> !deleteRaises && c.hasMainWindow)
      && (forall k | 1 <= k < |calls| :: calls[k] == RefreshCall)
      && |calls| <= 2
    ensures r.Raised? <==> deleteRaises || (c.hasMainWindow && refreshRaises)
  {
    if deleteRaises then Raised([DeleteProjectCall(projectId)])
    else if c.hasMainWindow then
      if refreshRaises then Raised([DeleteProjectCall(projectId), RefreshCall])
      else Ok([DeleteProjectCall(projectId), RefreshCall])
    else Ok([DeleteProjectCall(projectId)])
  }

  /** `open_new_project_dialog`: a dialog opens only over a registered root
      window; without one only an error line is printed. */
  function OpenNewProjectDialog(c: Controller): (calls: seq<ControllerCall>)
    ensures OpenDialogCall in calls <==> c.hasRoot
    ensures forall k | 0 <= k < |calls| :: calls[k] == OpenDialogCall
    ensures |calls| <= 1
  {
    if c.hasRoot then [OpenDialogCall] else []
  }

  // ---------------------------------------------------------------------
  // Properties

  /** A fresh controller, before any main window exists, creates and deletes
      without redrawing, so no redraw error can reach its caller, and opens
      no dialog. */
  lemma DetachedControllerIsSilent(db: Db, name: string, priority: int, dueDate: string, imagePath: Option<string>, id: int, refreshRaises: bool)
    ensures var o := CreateNewProject(NewController, db, name, priority, dueDate, imagePath, refreshRaises);
      && RefreshCall !in o.calls
      && o == CreateNewProject(NewController, db, name, priority, dueDate, imagePath, false)
    ensures var r := DeleteProjectFlow(NewController, id, false, refreshRaises); r.Ok? && r.value == [DeleteProjectCall(id)]
    ensures OpenNewProjectDialog(NewController) == []
  {
  }

  /** Once the main window is attached, a create on the schema always
      stores the project and is followed by exactly one redraw, after the
      save; it reports success exactly when that redraw does not raise. */
  lemma AttachedCreateRefreshes(c: Controller, db: Db, name: string, priority: int, dueDate: string, imagePath: Option<string>, refreshRaises: bool)
    requires HasSchema(db)
    ensures var o := CreateNewProject(AttachMainWindow(c), db, name, priority, dueDate, imagePath, refreshRaises);
      && o.Stored()
      && (o.result.Ok? <==> !refreshRaises)
      && o.calls == [SaveProjectCall(NewProject(name, priority, dueDate, imagePath)), RefreshCall]
  {
    SaveProjectOnSchema(db, NewProject(name, priority, dueDate, imagePath));
  }

  /** Once the main window is attached, a deletion that returns is followed
      by exactly one redraw; the flow raises exactly when that redraw does. */
  lemma AttachedDeleteRefreshes(c: Controller, id: int, refreshRaises: bool)
    ensures var r := DeleteProjectFlow(AttachMainWindow(c), id, false, refreshRaises);
      && (r.Raised? <==> refreshRaises)
      && (if r.Ok? then r.value else r.error) == [DeleteProjectCall(id), RefreshCall]
  {
  }

  /** Once the main window is attached, the dialog request opens exactly one
      dialog. */
  lemma AttachedOpensDialog(c: Controller)
    ensures OpenNewProjectDialog(AttachMainWindow(c)) == [OpenDialogCall]
  {
  }

  /** The project `create_new_project` stores is the one built from its
      arguments: on the schema, the new last row holds its name, priority
      and due date under the next rowid, and when the call returns, the
      project it returns carries that rowid. The thumbnail path is not
      stored. */
  lemma CreatedProjectIsStored(c: Controller, db: Db, name: string, priority: int, dueDate: string, imagePath: Option<string>, refreshRaises: bool)
    requires HasSchema(db)
    ensures var o := CreateNewProject(c, db, name, priority, dueDate, imagePath, refreshRaises);
      && o.Stored()
      && var before := db.tables[ProjectTable].rows;
      && var id := NextRowId(before);
      && var rows := o.db.tables[ProjectTable].rows;
      && |rows| == |before| + 1
      && rows[|rows| - 1] == Row(id, [Integer(id), Text(name), Integer(priority), Text(dueDate)])
      && (o.result.Ok? ==> o.result.value.id == Some(id))
  {
    SaveProjectOnSchema(db, NewProject(name, priority, dueDate, imagePath));
  }
}
