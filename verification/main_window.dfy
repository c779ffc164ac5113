/** The main window's project list: one tile per project in the order the
    controller returns them, the single selected tile drawn sunken, and the
    Open, Edit and Delete buttons that depend on the selection. */
module MainWindow {
  import opened PySemantics
  import opened DbModels
  import opened PmController

  datatype Relief = Solid | Sunken

  /** One drawn project tile. */
  datatype Tile = Tile(project: Project, relief: Relief)

  /** The window's selection state. `selectedId` is the id of the clicked
      tile's project, `lastSelected` the index of the clicked tile. */
  datatype WindowState = WindowState(
    tiles: seq<Tile>,
    selectedId: Option<int>,
    lastSelected: Option<nat>,
    openEnabled: bool,
    editEnabled: bool,
    deleteEnabled: bool)

  /** What the window keeps true between events: only the remembered tile
      is sunken, it names the selected project, and the three buttons are
      enabled exactly while a tile is remembered. */
  predicate Inv(w: WindowState)
  {
    && (w.lastSelected.Some? ==> w.lastSelected.value < |w.tiles|)
    && (forall k | 0 <= k < |w.tiles| :: w.tiles[k].relief == Sunken <==> w.lastSelected == Some(k))
    && (w.lastSelected.Some? ==> w.selectedId == w.tiles[w.lastSelected.value].project.id)
    && (w.lastSelected.None? ==> w.selectedId.None?)
    && w.openEnabled == w.editEnabled == w.deleteEnabled == w.lastSelected.Some?
  }

  /** The label shown for a priority. */
  function PriorityText(priority: int): (caption: string)
    ensures caption in {"HIGH", "MEDIUM", "LOW", "N/A"}
    ensures caption == "N/A" <==> !(1 <= priority <= 3)
  {
    if priority == 3 then "HIGH"
    else if priority == 2 then "MEDIUM"
    else if priority == 1 then "LOW"
    else "N/A"
  }

  /** The priority a label stands for; the reading direction of the label
      map, independent of `PriorityText`. */
  function LabelPriority(caption: string): (r: Option<int>)
  {
    match caption
    case "HIGH" => Some(3)
    case "MEDIUM" => Some(2)
    case "LOW" => Some(1)
    case _ => None
  }

  /** `refresh_project_list`: drop every tile and the selection, disable
      the buttons, and draw one solid tile per project as fetched. */
  function Refresh(w: WindowState, fetched: seq<Project>): (w': WindowState)
    ensures Inv(w')
    ensures |w'.tiles| == |fetched|
    ensures forall k | 0 <= k < |fetched| :: w'.tiles[k] == Tile(fetched[k], Solid)
    ensures w'.selectedId.None? && w'.lastSelected.None?
    ensures !w'.openEnabled && !w'.editEnabled && !w'.deleteEnabled
  {
    var projects := GetAllProjectsSorted(fetched);
    var tiles := seq(|projects|, k requires 0 <= k < |projects| => Tile(projects[k], Solid));
    WindowState(tiles, None, None, false, false, false)
  }

  /** `select_project`, on a click anywhere in tile `i`: the previously
      clicked tile is drawn solid again, tile `i` sunken, and the buttons
      are enabled. The selected id is the tile's project id, which is
      `None` for a project never saved. */
  function SelectProject(w: WindowState, i: nat): (w': WindowState)
    requires i < |w.tiles|
    ensures Inv(w) ==> Inv(w')
    ensures w'.lastSelected == Some(i)
    ensures w'.selectedId == w.tiles[i].project.id
    ensures w'.openEnabled && w'.editEnabled && w'.deleteEnabled
    ensures |w'.tiles| == |w.tiles|
    ensures forall k | 0 <= k < |w.tiles| :: w'.tiles[k].project == w.tiles[k].project
  {
    var reset := match w.lastSelected
      case None => w.tiles
      case Some(j) => if j < |w.tiles| then w.tiles[j := w.tiles[j].(relief := Solid)] else w.tiles;
    var tiles := reset[i := reset[i].(relief := Sunken)];
    WindowState(tiles, w.tiles[i].project.id, Some(i), true, true, true)
  }

  /** What a button press leads to. */
  datatype Reaction =
    | OpenDetail(projectId: int)
    | OpenEdit(projectId: int)
    | RequestDelete(projectId: int)
    | Warning(message: string)
    | Nothing

  /** `open_project_clicked`: acts on a truthy id only, and is silent
      otherwise. */
  function OpenProjectClicked(w: WindowState): (r: Reaction)
    ensures r.OpenDetail? <==> w.selectedId.Some? && w.selectedId.value != 0
    ensures r.OpenDetail? ==> r.projectId == w.selectedId.value
    ensures !r.OpenDetail? ==> r == Nothing
  {
    if OptIntTruthy(w.selectedId) then OpenDetail(w.selectedId.value) else Nothing
  }

  /** `edit_project_clicked`: acts on a truthy id, and warns otherwise. */
  function EditProjectClicked(w: WindowState): (r: Reaction)
    ensures r.OpenEdit? <==> w.selectedId.Some? && w.selectedId.value != 0
    ensures r.OpenEdit? ==> r.projectId == w.selectedId.value
    ensures !r.OpenEdit? ==> r.Warning?
  {
    if OptIntTruthy(w.selectedId) then OpenEdit(w.selectedId.value)
    else Warning("Please select a project tile to edit.")
  }

  /** `delete_project_clicked`: with a selected id (any id, 0 included) and
      the user's confirmation, request the delete flow; without a selection
      only warn; a refused confirmation does nothing. */
  function DeleteProjectClicked(w: WindowState, confirmed: bool): (r: Reaction)
    ensures r.RequestDelete? <==> w.selectedId.Some? && confirmed
    ensures r.RequestDelete? ==> r.projectId == w.selectedId.value
    ensures r.Warning? <==> w.selectedId.None?
    ensures w.selectedId.Some? && !confirmed ==> r == Nothing
  {
    match w.selectedId
    case None => Warning("Please select a project tile to delete first.")
    case Some(id) => if confirmed then RequestDelete(id) else Nothing
  }

  /** A click on Delete from start to finish: the window afterwards, what
      the click showed or requested, the controller's calls, and whether an
      error propagated out of the handler. */
  datatype DeleteClick = DeleteClick(w: WindowState, reaction: Reaction, calls: seq<ControllerCall>, raised: bool)

  /** The Delete handler followed through the controller: ask, run the
      controller's flow, and let the flow's redraw rebuild this window.
      `fetchedAfter` is the store's answer to the redraw's query, `None`
      when that query raised; the redraw has already dropped the tiles, the
      selection and the buttons before it queries, so a failed query leaves
      the list empty. */
  function ClickDelete(w: WindowState, c: Controller, confirmed: bool, deleteRaises: bool, fetchedAfter: Option<seq<Project>>): (d: DeleteClick)
    requires Inv(w)
    ensures Inv(d.w)
    ensures d.reaction == DeleteProjectClicked(w, confirmed)
    ensures !d.reaction.RequestDelete? ==> d.w == w && d.calls == [] && !d.raised
    ensures d.reaction.RequestDelete? ==>
      && var flow := DeleteProjectFlow(c, w.selectedId.value, deleteRaises, fetchedAfter.None?);
      && d.calls == (if flow.Ok? then flow.value else flow.error)
      && d.raised == flow.Raised?
    ensures d.w.selectedId.None? <==> w.selectedId.None? || RefreshCall in d.calls
    ensures RefreshCall in d.calls ==>
      && d.w.lastSelected.None? && !d.w.openEnabled && !d.w.editEnabled && !d.w.deleteEnabled
      && |d.w.tiles| == (if fetchedAfter.Some? then |fetchedAfter.value| else 0)
    ensures RefreshCall !in d.calls ==> d.w == w
  {
    var r := DeleteProjectClicked(w, confirmed);
    if !r.RequestDelete? then DeleteClick(w, r, [], false)
    else
      var flow := DeleteProjectFlow(c, r.projectId, deleteRaises, fetchedAfter.None?);
      var calls := if flow.Ok? then flow.value else flow.error;
      var w' := if RefreshCall in calls then Refresh(w, fetchedAfter.GetOr([])) else w;
      DeleteClick(w', r, calls, flow.Raised?)
  }

  // ---------------------------------------------------------------------
  // Properties

  /** The labels of 3, 2 and 1 read back as those priorities, and every
      other priority is labelled `N/A`, which reads back as none. */
  lemma PriorityLabelRoundTrip(priority: int)
    ensures LabelPriority(PriorityText(priority)) == (if 1 <= priority <= 3 then Some(priority) else None)
    ensures PriorityText(priority) == "N/A" <==> !(1 <= priority <= 3)
  {
  }

  /** The three priorities the dialog offers get three distinct labels. */
  lemma OfferedPrioritiesDistinctLabels(a: int, b: int)
    requires 1 <= a <= 3 && 1 <= b <= 3 && a != b
    ensures PriorityText(a) != PriorityText(b)
    ensures PriorityText(a) != "N/A"
  {
    PriorityLabelRoundTrip(a);
    PriorityLabelRoundTrip(b);
  }

  /** At most one tile is sunken. */
  lemma AtMostOneSunken(w: WindowState, a: nat, b: nat)
    requires Inv(w)
    requires a < |w.tiles| && b < |w.tiles|
    requires w.tiles[a].relief == Sunken && w.tiles[b].relief == Sunken
    ensures a == b
  {
  }

  /** When every tile's project has been saved, the buttons are enabled
      exactly when a project id is selected. */
  lemma ButtonsEnabledIffSelected(w: WindowState)
    requires Inv(w)
    requires forall k | 0 <= k < |w.tiles| :: w.tiles[k].project.id.Some?
    ensures w.openEnabled <==> w.selectedId.Some?
    ensures w.editEnabled <==> w.selectedId.Some?
    ensures w.deleteEnabled <==> w.selectedId.Some?
  {
  }

  /** A tile whose project has no id can be clicked: the buttons come on,
      yet every button then behaves as if nothing were selected. */
  lemma UnsavedTileEnablesIdleButtons(w: WindowState, i: nat, confirmed: bool)
    requires Inv(w) && i < |w.tiles|
    requires w.tiles[i].project.id.None?
    ensures var w' := SelectProject(w, i);
      && w'.openEnabled && w'.editEnabled && w'.deleteEnabled
      && OpenProjectClicked(w') == Nothing
      && EditProjectClicked(w').Warning?
      && DeleteProjectClicked(w', confirmed).Warning?
  {
  }

  /** The buttons disagree on project id 0: Open does nothing and Edit
      warns, since they test the id's truthiness, while Delete tests for
      `None` and requests the deletion. */
  lemma ZeroIdAsymmetry(w: WindowState)
    requires w.selectedId == Some(0)
    ensures OpenProjectClicked(w) == Nothing
    ensures EditProjectClicked(w).Warning?
    ensures DeleteProjectClicked(w, true) == RequestDelete(0)
  {
  }

  /** Clicking a tile after a refresh selects that tile's project, and a
      refresh after any clicks clears the selection again. */
  lemma SelectAfterRefresh(w: WindowState, fetched: seq<Project>, i: nat)
    requires i < |fetched|
    ensures var w1 := SelectProject(Refresh(w, fetched), i);
      && w1.selectedId == fetched[i].id
      && w1.tiles[i].relief == Sunken
      && Refresh(w1, fetched) == Refresh(w, fetched)
  {
  }

  /** With the main window attached, a confirmed delete of the selected
      project asks the store to delete exactly that project and then
      redraws, which leaves nothing selected and every button off whether or
      not the redraw's query raises; the handler raises exactly when it
      does. */
  lemma ConfirmedDeleteClearsSelection(w: WindowState, c: Controller, fetchedAfter: Option<seq<Project>>)
    requires Inv(w) && w.selectedId.Some?
    ensures var d := ClickDelete(w, AttachMainWindow(c), true, false, fetchedAfter);
      && d.calls == [DeleteProjectCall(w.selectedId.value), RefreshCall]
      && d.w.selectedId.None? && d.w.lastSelected.None?
      && !d.w.openEnabled && !d.w.editEnabled && !d.w.deleteEnabled
      && (d.raised <==> fetchedAfter.None?)
      && (fetchedAfter.Some? ==> forall k | 0 <= k < |fetchedAfter.value| :: d.w.tiles[k] == Tile(fetchedAfter.value[k], Solid))
  {
    AttachedDeleteRefreshes(c, w.selectedId.value, fetchedAfter.None?);
  }

  /** A delete that the store refuses, or one the user declines, leaves the
      window exactly as it was: the selection survives. */
  lemma FailedDeleteKeepsSelection(w: WindowState, c: Controller, confirmed: bool, fetchedAfter: Option<seq<Project>>)
    requires Inv(w) && w.selectedId.Some?
    ensures var d := ClickDelete(w, c, confirmed, true, fetchedAfter);
      && d.w == w
      && (d.raised <==> confirmed)
      && (d.calls == if confirmed then [DeleteProjectCall(w.selectedId.value)] else [])
  {
  }
}
