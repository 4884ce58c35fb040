/**
 * The window tree: which window is in which column or floating list, and what
 * has the focus. src/tree/column.c, workspace.c, window.c and root.c.
 *
 * The objects are classes, as in the program; Tree is a picture of all their
 * fields at one moment, and every operation is described as what it does to
 * the picture. TreeInvariant.dfy proves what every run keeps, and
 * TreeOperations.dfy that the methods on the objects do just this.
 */
module Tree {
  import opened Seqs

  datatype FocusMode = Tiling | Floating

  class Window {
    var workspace: Workspace?
    var column: Column?
    var output: Option<nat>
    var dead: bool

    constructor ()
      ensures Value() == WindowState(null, null, None, false)
    {
      workspace, column, output, dead := null, null, None, false;
    }

    ghost function Value(): WindowState
      reads this
    {
      WindowState(workspace, column, output, dead)
    }
  }

  class Column {
    var workspace: Workspace?
    var output: Option<nat>
    var children: seq<Window>
    var activeChild: Window?

    constructor ()
      ensures Value() == ColumnState(null, None, [], null)
    {
      workspace, output, children, activeChild := null, None, [], null;
    }

    ghost function Value(): ColumnState
      reads this
    {
      ColumnState(workspace, output, children, activeChild)
    }
  }

  class Workspace {
    var columns: seq<Column>
    var floating: seq<Window>
    var activeColumn: Column?
    var focusMode: FocusMode
    var dead: bool

    constructor ()
      ensures Value() == WorkspaceState([], [], null, Tiling, false)
    {
      columns, floating, activeColumn, focusMode, dead := [], [], null, Tiling, false;
    }

    ghost function Value(): WorkspaceState
      reads this
    {
      WorkspaceState(columns, floating, activeColumn, focusMode, dead)
    }
  }

  // ---------------------------------------------------------------------
  // The picture
  // ---------------------------------------------------------------------

  datatype WindowState = WindowState(workspace: Workspace?, column: Column?, output: Option<nat>, dead: bool)

  datatype ColumnState =
    ColumnState(workspace: Workspace?, output: Option<nat>, children: seq<Window>, activeChild: Window?)

  datatype WorkspaceState =
    WorkspaceState(columns: seq<Column>, floating: seq<Window>, activeColumn: Column?, focusMode: FocusMode, dead: bool)

  /** Everything that was ever created, and what the root points at. */
  datatype Tree = Tree(
    windows: map<Window, WindowState>,
    columns: map<Column, ColumnState>,
    workspaces: map<Workspace, WorkspaceState>,
    listed: set<Workspace>,
    activeWorkspace: Workspace?,
    activeOutput: Option<nat>)

  /** The globals of the tree, and ghost sets of all objects that were ever created. */
  class Root {
    var workspaces: set<Workspace>
    var activeWorkspace: Workspace?
    var activeOutput: Option<nat>
    ghost var allWindows: set<Window>
    ghost var allColumns: set<Column>
    ghost var allWorkspaces: set<Workspace>

    constructor ()
      ensures State() == EMPTY
    {
      workspaces, activeWorkspace, activeOutput := {}, null, None;
      allWindows, allColumns, allWorkspaces := {}, {}, {};
    }

    ghost function WindowStates(): (m: map<Window, WindowState>)
      reads `allWindows, allWindows
      ensures m.Keys == allWindows
    {
      map w | w in allWindows :: w.Value()
    }

    ghost function ColumnStates(): (m: map<Column, ColumnState>)
      reads `allColumns, allColumns
      ensures m.Keys == allColumns
    {
      map c | c in allColumns :: c.Value()
    }

    ghost function WorkspaceStates(): (m: map<Workspace, WorkspaceState>)
      reads `allWorkspaces, allWorkspaces
      ensures m.Keys == allWorkspaces
    {
      map s | s in allWorkspaces :: s.Value()
    }

    ghost function State(): Tree
      reads this, allWindows, allColumns, allWorkspaces
    {
      Tree(WindowStates(), ColumnStates(), WorkspaceStates(), workspaces, activeWorkspace, activeOutput)
    }
  }

  const EMPTY: Tree := Tree(map[], map[], map[], {}, null, None)

  // ---------------------------------------------------------------------
  // Columns
  // ---------------------------------------------------------------------

  predicate Detached(t: Tree, w: Window) {
    w in t.windows && t.windows[w].workspace == null && t.windows[w].column == null
  }

  /** The column hangs in its workspace. */
  ghost predicate Attached(t: Tree, c: Column) {
    && c in t.columns && t.columns[c].workspace != null
    && t.columns[c].workspace in t.workspaces && c in t.workspaces[t.columns[c].workspace].columns
  }

  /** window_reconcile_tiling. */
  function Tiled(t: Tree, w: Window, c: Column): WindowState
    requires w in t.windows && c in t.columns
  {
    t.windows[w].(workspace := t.columns[c].workspace, column := c, output := t.columns[c].output)
  }

  function InsertChild(t: Tree, c: Column, w: Window, i: nat): Tree
    requires c in t.columns && w in t.windows && i <= |t.columns[c].children|
  {
    var col := t.columns[c];
    t.(windows := t.windows[w := Tiled(t, w, c)],
       columns := t.columns[c := col.(children := Insert(col.children, i, w),
                                      activeChild := if col.children == [] then w else col.activeChild)])
  }

  function AddSibling(t: Tree, sibling: Window, w: Window, behind: bool): Tree
    requires sibling in t.windows && w in t.windows && t.windows[sibling].column in t.columns
    requires sibling in t.columns[t.windows[sibling].column].children
  {
    var c := t.windows[sibling].column;
    InsertChild(t, c, w, IndexOf(t.columns[c].children, sibling) + if behind then 1 else 0)
  }

  /** The child that takes over when the active one goes. */
  function NextActive(col: ColumnState, w: Window): Window?
    requires w in col.children
  {
    if col.activeChild != w then col.activeChild
    else
      var rest, i := Remove(col.children, w), IndexOf(col.children, w);
      if rest == [] then null else rest[if i > 0 then i - 1 else 0]
  }

  function RemoveChild(t: Tree, c: Column, w: Window): Tree
    requires c in t.columns && w in t.windows && w in t.columns[c].children
  {
    var col := t.columns[c];
    t.(windows := t.windows[w := t.windows[w].(workspace := null, column := null)],
       columns := t.columns[c := col.(children := Remove(col.children, w), activeChild := NextActive(col, w))])
  }

  function SetActiveChild(t: Tree, c: Column, w: Window): Tree
    requires c in t.columns
  {
    t.(columns := t.columns[c := t.columns[c].(activeChild := w)])
  }

  // ---------------------------------------------------------------------
  // Floating windows
  // ---------------------------------------------------------------------

  /** A window that was on no output yet goes to the active one. */
  function AddFloating(t: Tree, s: Workspace, w: Window): Tree
    requires s in t.workspaces && w in t.windows
  {
    var ws, win := t.workspaces[s], t.windows[w];
    t.(windows := t.windows[w := win.(workspace := s, column := null,
                                      output := if win.output.None? then t.activeOutput else win.output)],
       workspaces := t.workspaces[s := ws.(floating := ws.floating + [w])])
  }

  function RemoveFloating(t: Tree, s: Workspace, w: Window): Tree
    requires s in t.workspaces && w in t.windows
  {
    var ws := t.workspaces[s];
    var rest := Remove(ws.floating, w);
    t.(windows := t.windows[w := t.windows[w].(workspace := null, column := null)],
       workspaces := t.workspaces[s := ws.(floating := rest,
                                           focusMode := if rest == [] then Tiling else ws.focusMode)])
  }

  predicate IsFloating(t: Tree, w: Window)
    requires w in t.windows
  {
    t.windows[w].workspace != null && t.windows[w].column == null
  }

  function Raise(t: Tree, w: Window): Tree
    requires w in t.windows && (IsFloating(t, w) ==> t.windows[w].workspace in t.workspaces)
  {
    if !IsFloating(t, w) then t
    else
      var s := t.windows[w].workspace;
      var ws := t.workspaces[s];
      t.(workspaces := t.workspaces[s := ws.(floating := Remove(ws.floating, w) + [w])])
  }

  function Detach(t: Tree, w: Window): Tree
    requires w in t.windows
    requires var c := t.windows[w].column; c != null ==> c in t.columns && w in t.columns[c].children
    requires var s := t.windows[w].workspace; s != null ==> s in t.workspaces
  {
    var win := t.windows[w];
    if win.workspace == null then t
    else if win.column != null then RemoveChild(t, win.column, w)
    else RemoveFloating(t, win.workspace, w)
  }

  // ---------------------------------------------------------------------
  // Columns in their workspace
  // ---------------------------------------------------------------------

  function InsertColumn(t: Tree, s: Workspace, c: Column, output: Option<nat>, i: nat): Tree
    requires s in t.workspaces && c in t.columns && i <= |t.workspaces[s].columns|
  {
    var ws := t.workspaces[s];
    t.(columns := t.columns[c := t.columns[c].(workspace := s, output := output)],
       workspaces := t.workspaces[s := ws.(columns := Insert(ws.columns, i, c))])
  }

  /**
   * Which column takes over from one that was at the given index: the last one
   * before it on the same output, or else the first one behind it.
   */
  function NextColumn(t: Tree, columns: seq<Column>, output: Option<nat>, index: nat): Column?
    requires forall c :: c in columns ==> c in t.columns
  {
    NextColumnFrom(t, columns, output, index, 0, null)
  }

  /** The candidate loop of column_consider_destroy, from index i on. */
  function NextColumnFrom(t: Tree, columns: seq<Column>, output: Option<nat>, index: nat, i: nat, next: Column?): Column?
    requires forall c :: c in columns ==> c in t.columns
    decreases |columns| - i
  {
    if i >= |columns| then next
    else if t.columns[columns[i]].output != output then NextColumnFrom(t, columns, output, index, i + 1, next)
    else if next != null && i >= index then next
    else NextColumnFrom(t, columns, output, index, i + 1, columns[i])
  }

  function ConsiderDestroyWorkspace(t: Tree, s: Workspace): Tree
    requires s in t.workspaces
  {
    var ws := t.workspaces[s];
    if ws.dead || ws.columns != [] || ws.floating != [] || s == t.activeWorkspace then t
    else t.(workspaces := t.workspaces[s := ws.(dead := true)], listed := t.listed - {s})
  }

  /** Takes an empty column out of its workspace. */
  function UnlinkColumn(t: Tree, c: Column): Tree
    requires c in t.columns && t.columns[c].workspace != null && t.columns[c].workspace in t.workspaces
    requires c in t.workspaces[t.columns[c].workspace].columns
    requires forall d :: d in t.workspaces[t.columns[c].workspace].columns ==> d in t.columns
  {
    var s := t.columns[c].workspace;
    var ws := t.workspaces[s];
    var rest := Remove(ws.columns, c);
    t.(workspaces := t.workspaces[s := ws.(
         columns := rest,
         activeColumn := if ws.activeColumn != c then ws.activeColumn
                         else NextColumn(t, rest, t.columns[c].output, IndexOf(ws.columns, c)))])
  }

  function ConsiderDestroyColumn(t: Tree, c: Column): Tree
    requires c in t.columns
    requires t.columns[c].children == [] ==>
               && Attached(t, c)
               && forall d :: d in t.workspaces[t.columns[c].workspace].columns ==> d in t.columns
  {
    if t.columns[c].children != [] then t
    else ConsiderDestroyWorkspace(UnlinkColumn(t, c), t.columns[c].workspace)
  }

  // ---------------------------------------------------------------------
  // Focus
  // ---------------------------------------------------------------------

  function ActiveTiling(t: Tree, s: Workspace): Window?
    requires s in t.workspaces
    requires var c := t.workspaces[s].activeColumn; c != null ==> c in t.columns
  {
    var c := t.workspaces[s].activeColumn;
    if c == null then null else t.columns[c].activeChild
  }

  function ActiveFloating(t: Tree, s: Workspace): Window?
    requires s in t.workspaces
  {
    var floating := t.workspaces[s].floating;
    if floating == [] then null else floating[|floating| - 1]
  }

  function ActiveWindow(t: Tree, s: Workspace): Window?
    requires s in t.workspaces
    requires var c := t.workspaces[s].activeColumn; c != null ==> c in t.columns
  {
    if t.workspaces[s].focusMode.Tiling? then ActiveTiling(t, s) else ActiveFloating(t, s)
  }

  function FocusNothing(t: Tree, s: Workspace): Tree
    requires s in t.workspaces
  {
    t.(workspaces := t.workspaces[s := t.workspaces[s].(activeColumn := null, focusMode := Tiling)])
  }

  function FocusFloating(t: Tree, s: Workspace, w: Window): Tree
    requires s in t.workspaces
  {
    var ws := t.workspaces[s];
    t.(workspaces := t.workspaces[s := ws.(floating := Remove(ws.floating, w) + [w], focusMode := Floating)])
  }

  function FocusTiling(t: Tree, s: Workspace, c: Column, w: Window): Tree
    requires s in t.workspaces && c in t.columns
  {
    var u := SetActiveChild(t, c, w);
    u.(workspaces := u.workspaces[s := u.workspaces[s].(activeColumn := c, focusMode := Tiling)],
       activeOutput := if t.activeWorkspace == s then t.columns[c].output else t.activeOutput)
  }

  function SetActiveWindow(t: Tree, s: Workspace, w: Window?): Tree
    requires s in t.workspaces
    requires var c := t.workspaces[s].activeColumn; c != null ==> c in t.columns
    requires w != null ==> w in t.windows && (t.windows[w].column != null ==> t.windows[w].column in t.columns)
  {
    if w == ActiveWindow(t, s) then t
    else if w == null then FocusNothing(t, s)
    else if t.windows[w].column == null then FocusFloating(t, s, w)
    else FocusTiling(t, s, t.windows[w].column, w)
  }

  function SetActiveWorkspace(t: Tree, s: Workspace): Tree
    requires s in t.workspaces
    requires var c := t.workspaces[s].activeColumn; c != null ==> c in t.columns
    requires t.activeWorkspace != null ==> t.activeWorkspace in t.workspaces
  {
    if s == t.activeWorkspace then t
    else
      var u := t.(activeWorkspace := s);
      var v := if t.activeWorkspace == null then u else ConsiderDestroyWorkspace(u, t.activeWorkspace);
      var c := t.workspaces[s].activeColumn;
      if c != null && t.columns[c].output.Some? then v.(activeOutput := t.columns[c].output) else v
  }

  /** root_set_focused_window. */
  function SetFocusedWindow(t: Tree, w: Window): Tree
    requires w in t.windows && t.windows[w].workspace in t.workspaces
    requires var c := t.workspaces[t.windows[w].workspace].activeColumn; c != null ==> c in t.columns
    requires t.activeWorkspace != null ==> t.activeWorkspace in t.workspaces
    requires t.windows[w].column != null ==> t.windows[w].column in t.columns
  {
    var s: Workspace := t.windows[w].workspace;
    SetActiveWindow(SetActiveWorkspace(t, s), s, w)
  }

  // ---------------------------------------------------------------------
  // Birth and death
  // ---------------------------------------------------------------------

  function CreateWindow(t: Tree, w: Window): Tree { t.(windows := t.windows[w := WindowState(null, null, None, false)]) }

  function CreateColumn(t: Tree, c: Column): Tree { t.(columns := t.columns[c := ColumnState(null, None, [], null)]) }

  function CreateWorkspace(t: Tree, s: Workspace): Tree {
    t.(workspaces := t.workspaces[s := WorkspaceState([], [], null, Tiling, false)],
       listed := t.listed + {s},
       activeWorkspace := if t.activeWorkspace == null then s else t.activeWorkspace)
  }

  function Kill(t: Tree, w: Window): Tree
    requires w in t.windows
  {
    t.(windows := t.windows[w := t.windows[w].(dead := true)])
  }
}
