/** The dashboard's navigation state (`Dashboard.jsx`): the folder being
    shown, the breadcrumb trail leading to it, whether the create-folder
    dialog is open, and the counter whose every change remounts the file
    list. */
module Dashboard {
  import opened Backend

  const HOME: string := "Home"
  /** The quick-access id that opens the create-folder dialog. */
  const CREATE_FOLDER: string := "create-folder"

  /** One breadcrumb: a folder id and the name shown for it. */
  datatype Crumb = Crumb(id: string, name: string)

  datatype DashState = DashState(
    currentFolder: string,
    path: seq<Crumb>,
    showCreateFolder: bool,
    refresh: nat)

  /** The state every dashboard starts in. */
  function Init(): (st: DashState)
    ensures st.currentFolder == ROOT && st.path == [Crumb(ROOT, HOME)]
    ensures !st.showCreateFolder && st.refresh == 0
  {
    DashState(ROOT, [Crumb(ROOT, HOME)], false, 0)
  }

  /** The trail's ids are pairwise distinct. */
  predicate DistinctIds(path: seq<Crumb>) {
    forall i, j :: 0 <= i < j < |path| ==> path[i].id != path[j].id
  }

  /** What navigation keeps true: the trail starts at Home, ends at the
      folder being shown, and visits no folder twice. */
  predicate Wf(st: DashState) {
    && |st.path| > 0
    && st.path[0] == Crumb(ROOT, HOME)
    && st.path[|st.path| - 1].id == st.currentFolder
    && DistinctIds(st.path)
  }

  /** `path.findIndex(folder => folder.id === id)`: the first position holding
      `id`, or -1. */
  function FindIndex(path: seq<Crumb>, id: string): (r: int)
    ensures -1 <= r < |path|
    ensures r == -1 <==> forall k :: 0 <= k < |path| ==> path[k].id != id
    ensures r >= 0 ==> path[r].id == id && forall k :: 0 <= k < r ==> path[k].id != id
    decreases |path|
  {
    if |path| == 0 then -1
    else if path[0].id == id then 0
    else
      var r := FindIndex(path[1..], id);
      if r == -1 then -1 else r + 1
  }

  /** `handleFolderClick(id, name)`: show that folder; if it is already on
      the trail (first at `i`), cut the trail to its first `i + 1` crumbs,
      otherwise append it, leaving the old trail as a prefix. */
  function FolderClick(st: DashState, id: string, name: string): (r: DashState)
    ensures r.currentFolder == id
    ensures |r.path| > 0 && r.path[|r.path| - 1].id == id
    ensures forall i :: (0 <= i < |st.path| && st.path[i].id == id && (forall k :: 0 <= k < i ==> st.path[k].id != id)
      ==> r.path == st.path[..i + 1])
    ensures (forall k :: 0 <= k < |st.path| ==> st.path[k].id != id) ==>
      r.path == st.path + [Crumb(id, name)] && r.path[..|st.path|] == st.path
    ensures r.showCreateFolder == st.showCreateFolder && r.refresh == st.refresh
  {
    var i := FindIndex(st.path, id);
    if i >= 0 then st.(currentFolder := id, path := st.path[..i + 1])
    else st.(currentFolder := id, path := st.path + [Crumb(id, name)])
  }

  /** `handleBreadcrumbClick(id, index)`: show that folder and cut the trail
      after position `index` (`slice` stops at the end of the trail). */
  function BreadcrumbClick(st: DashState, id: string, index: nat): (r: DashState)
    ensures r.currentFolder == id
    ensures index < |st.path| ==> |r.path| == index + 1 && r.path == st.path[..index + 1]
    ensures index >= |st.path| ==> r.path == st.path
    ensures r.showCreateFolder == st.showCreateFolder && r.refresh == st.refresh
  {
    var end := if index + 1 <= |st.path| then index + 1 else |st.path|;
    st.(currentFolder := id, path := st.path[..end])
  }

  /** Clicking the last crumb of a well-formed state changes nothing. */
  lemma LastCrumbIdempotent(st: DashState)
    requires Wf(st)
    ensures BreadcrumbClick(st, st.path[|st.path| - 1].id, |st.path| - 1) == st
  {
    assert st.path[..|st.path|] == st.path;
  }

  /** Entering a folder from the trail and clicking the crumb one came from
      gives back the state one was in. */
  lemma EnterThenBack(st: DashState, id: string, name: string)
    requires Wf(st)
    requires forall k :: 0 <= k < |st.path| ==> st.path[k].id != id
    ensures BreadcrumbClick(FolderClick(st, id, name), st.currentFolder, |st.path| - 1) == st
  {
    var r := FolderClick(st, id, name);
    assert r.path[..|st.path|] == st.path;
  }

  /** A click on a shown crumb: index within the trail, id read from it. */
  predicate IsShownCrumb(st: DashState, id: string, index: nat) {
    index < |st.path| && st.path[index].id == id
  }

  /** Folder clicks keep the trail well formed. */
  lemma FolderClickKeepsWf(st: DashState, id: string, name: string)
    requires Wf(st)
    ensures Wf(FolderClick(st, id, name))
  {
    var i := FindIndex(st.path, id);
    var r := FolderClick(st, id, name);
    if i >= 0 {
      assert r.path[0] == st.path[0];
    } else {
      assert r.path[0] == st.path[0];
      forall p, q | 0 <= p < q < |r.path| ensures r.path[p].id != r.path[q].id {
        if q == |st.path| {
          assert r.path[p] == st.path[p];
        } else {
          assert r.path[p] == st.path[p] && r.path[q] == st.path[q];
        }
      }
    }
  }

  /** So do clicks on a shown crumb. */
  lemma BreadcrumbClickKeepsWf(st: DashState, id: string, index: nat)
    requires Wf(st) && IsShownCrumb(st, id, index)
    ensures Wf(BreadcrumbClick(st, id, index))
  {
    var r := BreadcrumbClick(st, id, index);
    assert r.path[0] == st.path[0];
  }

  /** Quick-access cards: the `create-folder` id opens the dialog, any other
      id only logs and changes no state. */
  function QuickAccessClick(st: DashState, id: string): (r: DashState)
    ensures id == CREATE_FOLDER ==> r == st.(showCreateFolder := true)
    ensures id != CREATE_FOLDER ==> r == st
  {
    if id == CREATE_FOLDER then st.(showCreateFolder := true) else st
  }

  /** The "New Folder" button and the "Add Folder" card both open the dialog. */
  function OpenCreateFolder(st: DashState): (r: DashState)
    ensures r.showCreateFolder && r == st.(showCreateFolder := true)
  {
    st.(showCreateFolder := true)
  }

  /** The dialog's `onClose`. */
  function CloseCreateFolder(st: DashState): (r: DashState)
    ensures !r.showCreateFolder && r == st.(showCreateFolder := false)
  {
    st.(showCreateFolder := false)
  }

  /** `handleUploadComplete` and `handleFolderCreated` alike: one more refresh. */
  function Refresh(st: DashState): (r: DashState)
    ensures r.refresh == st.refresh + 1
    ensures r.currentFolder == st.currentFolder && r.path == st.path && r.showCreateFolder == st.showCreateFolder
  {
    st.(refresh := st.refresh + 1)
  }

  /** What the user can do on the dashboard. */
  datatype Action =
    | OpenFolder(id: string, name: string)  // a folder row of the file list
    | OpenCrumb(index: nat)                  // a breadcrumb button
    | QuickAccess(cardId: string)            // a quick-access card
    | NewFolder                              // "New Folder" or "Add Folder"
    | CloseDialog
    | UploadComplete
    | FolderCreated

  /** One action. A crumb button exists only for positions on the trail, and
      the quick-access cards only while the root folder is shown, so a click
      on anything else is no action at all. */
  function Step(st: DashState, a: Action): DashState {
    match a
    case OpenFolder(id, name) => FolderClick(st, id, name)
    case OpenCrumb(i) => if i < |st.path| then BreadcrumbClick(st, st.path[i].id, i) else st
    case QuickAccess(id) => if st.currentFolder == ROOT then QuickAccessClick(st, id) else st
    case NewFolder => OpenCreateFolder(st)
    case CloseDialog => CloseCreateFolder(st)
    case UploadComplete => Refresh(st)
    case FolderCreated => Refresh(st)
  }

  function Run(st: DashState, actions: seq<Action>): DashState
    decreases |actions|
  {
    if |actions| == 0 then st else Run(Step(st, actions[0]), actions[1..])
  }

  /** Every action keeps the trail well formed. */
  lemma StepKeepsWf(st: DashState, a: Action)
    requires Wf(st)
    ensures Wf(Step(st, a))
  {
    match a
    case OpenFolder(id, name) => FolderClickKeepsWf(st, id, name);
    case OpenCrumb(i) =>
      if i < |st.path| {
        BreadcrumbClickKeepsWf(st, st.path[i].id, i);
      }
    case _ =>
  }

  /** From the initial state, whatever the user does, the trail is never
      empty, starts at Home, ends at the folder shown, and repeats no folder. */
  lemma {:induction false} ReachableWf(actions: seq<Action>)
    ensures Wf(Run(Init(), actions))
  {
    RunKeepsWf(Init(), actions);
  }

  lemma {:induction false} RunKeepsWf(st: DashState, actions: seq<Action>)
    requires Wf(st)
    ensures Wf(Run(st, actions))
    decreases |actions|
  {
    if |actions| > 0 {
      StepKeepsWf(st, actions[0]);
      RunKeepsWf(Step(st, actions[0]), actions[1..]);
    }
  }

  /** The refresh counter counts exactly the completed uploads and created folders. */
  function Refreshes(actions: seq<Action>): nat
    decreases |actions|
  {
    if |actions| == 0 then 0
    else (if actions[0].UploadComplete? || actions[0].FolderCreated? then 1 else 0) + Refreshes(actions[1..])
  }

  lemma {:induction false} RefreshCounts(st: DashState, actions: seq<Action>)
    ensures Run(st, actions).refresh == st.refresh + Refreshes(actions)
    decreases |actions|
  {
    if |actions| > 0 {
      RefreshCounts(Step(st, actions[0]), actions[1..]);
    }
  }
}
