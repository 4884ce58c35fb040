/**
 * The commands and client events on the tree's objects, as the program runs
 * them. Each does to the objects what its function of TreeCommands.dfy says.
 * The column that column_create would return is passed in as spare.
 */
module TreeActions {
  import opened Seqs
  import opened Tree
  import opened TreeInvariant
  import opened TreeSteps
  import opened TreeCommands
  import opened TreeOperations

  method ColumnCreate(root: Root, column: Column)
    requires column !in root.allColumns
    modifies root, column
    ensures root.State() == CreateColumn(old(root.State()), column)
    ensures root.allWindows == old(root.allWindows) && root.allWorkspaces == old(root.allWorkspaces)
    ensures root.allColumns == old(root.allColumns) + {column}
  {
    ghost var t := root.State();
    column.workspace, column.output, column.children, column.activeChild := null, None, [], null;
    root.allColumns := root.allColumns + {column};
    NoWindowChanged(root, t.windows);
    assert root.ColumnStates() == t.columns[column := column.Value()];
    NoWorkspaceChanged(root, t.workspaces);
  }

  method WindowCreate(root: Root, window: Window)
    requires window !in root.allWindows
    modifies root, window
    ensures root.State() == CreateWindow(old(root.State()), window)
    ensures root.allColumns == old(root.allColumns) && root.allWorkspaces == old(root.allWorkspaces)
    ensures root.allWindows == old(root.allWindows) + {window}
  {
    ghost var t := root.State();
    window.workspace, window.column, window.output, window.dead := null, null, None, false;
    root.allWindows := root.allWindows + {window};
    assert root.WindowStates() == t.windows[window := window.Value()];
    NoColumnChanged(root, t.columns);
    NoWorkspaceChanged(root, t.workspaces);
  }

  method WorkspaceCreate(root: Root, workspace: Workspace)
    requires workspace !in root.allWorkspaces
    modifies root, workspace
    ensures root.State() == CreateWorkspace(old(root.State()), workspace)
    ensures root.allColumns == old(root.allColumns) && root.allWindows == old(root.allWindows)
    ensures root.allWorkspaces == old(root.allWorkspaces) + {workspace}
  {
    ghost var t := root.State();
    workspace.columns, workspace.floating, workspace.activeColumn := [], [], null;
    workspace.focusMode, workspace.dead := Tiling, false;
    root.allWorkspaces := root.allWorkspaces + {workspace};
    assert root.WorkspaceStates() == t.workspaces[workspace := workspace.Value()];
    NoWindowChanged(root, t.windows);
    NoColumnChanged(root, t.columns);
    ListWorkspace(root, workspace);
  }

  /** The new workspace joins the list, and is shown if none was. */
  method ListWorkspace(root: Root, workspace: Workspace)
    modifies root`workspaces, root`activeWorkspace
    ensures var t := old(root.State());
            root.State() == t.(listed := t.listed + {workspace},
                               activeWorkspace := if t.activeWorkspace == null then workspace else t.activeWorkspace)
  {
    root.workspaces := root.workspaces + {workspace};
    if root.activeWorkspace == null {
      root.activeWorkspace := workspace;
    }
  }

  /** column_create and workspace_insert_column_first or _last. */
  method InsertNewColumn(root: Root, workspace: Workspace, output: Option<nat>, index: nat, spare: Column)
    requires Inv(root.State()) && spare !in root.allColumns && workspace in root.workspaces && output.Some?
    requires index <= |workspace.columns|
    modifies root, workspace, spare
    ensures workspace in old(root.State()).workspaces
    ensures root.State() == NewColumn(old(root.State()), workspace, output, index, spare)
    ensures root.allWindows == old(root.allWindows) && root.allWorkspaces == old(root.allWorkspaces)
    ensures root.allColumns == old(root.allColumns) + {spare}
  {
    ghost var t := root.State();
    CreateColumnKeeps(t, spare);
    assert workspace in t.workspaces && !t.workspaces[workspace].dead;
    hide Inv;
    ColumnCreate(root, spare);
    WorkspaceInsertColumn(root, workspace, output, spare, index);
  }

  // ---------------------------------------------------------------------
  // Choosing a column
  // ---------------------------------------------------------------------

  /** The loop over the workspace's columns, and the preference for the active one. */
  method ChooseColumn(root: Root, workspace: Workspace, output: Option<nat>) returns (column: Column?)
    requires workspace in root.allWorkspaces && ColumnsOk(root.State(), workspace)
    ensures column == TargetColumn(root.State(), workspace, output)
  {
    ghost var t := root.State();
    var columns := workspace.columns;
    column := null;
    for i := 0 to |columns|
      invariant column == null
      invariant FirstColumnOn(t, columns, output) == FirstColumnOn(t, columns[i..], output)
    {
      assert t.columns[columns[i]].output == columns[i].output;
      assert columns[i..][1..] == columns[i + 1..];
      if columns[i].output == output {
        column := columns[i];
        break;
      }
    }
    if workspace.activeColumn != null && workspace.activeColumn.output == output {
      column := workspace.activeColumn;
    }
  }

  lemma ListsAre(t: Tree, s: Workspace)
    requires Inv(t) && s in t.workspaces
    ensures ColumnsOk(t, s) && FloatingOk(t, s)
  {
  }

  lemma ActiveIsChild(t: Tree, c: Column)
    requires Inv(t) && c in t.columns && t.columns[c].activeChild != null
    ensures var active := t.columns[c].activeChild;
            IsTiled(t, active) && t.windows[active].column == c && IsChild(t, c, active)
  {
    assert ChildrenOk(t, c);
  }

  lemma BehindActiveIs(t: Tree, c: Column, w: Window)
    requires Inv(t) && Detached(t, w) && !t.windows[w].dead && Attached(t, c)
    ensures var active := t.columns[c].activeChild;
            if active == null then PutBehindActive(t, c, w) == InsertChild(t, c, w, |t.columns[c].children|)
            else IsTiled(t, active) && t.windows[active].column == c && IsChild(t, c, active)
                 && AddSibling(t, active, w, true) == PutBehindActive(t, c, w)
  {
    hide Inv;
    if t.columns[c].activeChild != null {
      ActiveIsChild(t, c);
    }
  }

  /** Behind the active child of the column if it has one, or else at its end. */
  method AddBehindActive(root: Root, column: Column, window: Window)
    requires Inv(root.State()) && Detached(root.State(), window) && !window.dead && Attached(root.State(), column)
    modifies root.allWindows, root.allColumns
    ensures root.State() == PutBehindActive(old(root.State()), column, window)
  {
    ghost var t := root.State();
    hide Inv, InsertChild, AddSibling, PutBehindActive;
    BehindActiveIs(t, column, window);
    var sibling := column.activeChild;
    if sibling != null {
      ColumnAddSibling(root, sibling, window, true);
    } else {
      ColumnAddChild(root, column, window);
    }
  }

  // ---------------------------------------------------------------------
  // src/commands/floating.c
  // ---------------------------------------------------------------------

  /** Puts a detached window in the column that TargetColumn says, made first if need be. */
  method AddOnOutput(root: Root, workspace: Workspace, window: Window, output: Option<nat>, spare: Column)
    requires Inv(root.State()) && Detached(root.State(), window) && !window.dead
    requires workspace in root.workspaces && output.Some? && spare !in root.allColumns
    modifies root, spare, root.allWindows, root.allColumns, root.allWorkspaces
    ensures root.allWindows == old(root.allWindows) && root.allWorkspaces == old(root.allWorkspaces)
    ensures old(root.allColumns) <= root.allColumns <= old(root.allColumns) + {spare}
    ensures root.State() == PutOnOutput(old(root.State()), workspace, window, output, spare)
  {
    ghost var t := root.State();
    assert workspace in t.workspaces;
    ListsAre(t, workspace);
    hide Inv;
    var column := ChooseColumn(root, workspace, output);
    if column == null {
      InsertNewColumn(root, workspace, output, 0, spare);
      AddBehindActive(root, spare, window);
    } else {
      InWorkspace(t, workspace, column);
      AddBehindActive(root, column, window);
    }
  }

  lemma FloatingInTree(t: Tree, s: Workspace)
    requires Inv(t) && s in t.workspaces
    ensures forall w :: w in t.workspaces[s].floating ==> w in t.windows
  {
    assert FloatingOk(t, s);
  }

  method WindowRefloat(root: Root, window: Window)
    requires Inv(root.State()) && IsPlaced(root.State(), window)
    modifies root.allWindows, root.allColumns, root.allWorkspaces
    ensures root.State() == Refloat(old(root.State()), window)
  {
    hide Inv;
    ghost var t := root.State();
    Pointers(t, window);
    var workspace := window.workspace;
    WindowDetach(root, window);
    FloatingInTree(root.State(), workspace);
    WorkspaceAddFloating(root, workspace, window);
  }

  method FloatingEnable(root: Root, window: Window)
    requires Inv(root.State()) && IsPlaced(root.State(), window)
    modifies root, root.allWindows, root.allColumns, root.allWorkspaces
    ensures root.allWindows == old(root.allWindows) && root.allWorkspaces == old(root.allWorkspaces)
    ensures root.allColumns == old(root.allColumns)
    ensures root.State() == FloatOn(old(root.State()), window)
  {
    hide Inv, Refloat, Calm, Discard;
    Pointers(root.State(), window);
    var oldColumn := window.column;
    WindowRefloat(root, window);
    if oldColumn != null {
      ColumnConsiderDestroy(root, oldColumn);
    }
  }

  /** What cmd_floating does once it knows whether the window had the focus. */
  method FloatOrTile(root: Root, window: Window, enable: bool, focused: bool, spare: Column)
    requires Inv(root.State()) && IsPlaced(root.State(), window) && spare !in root.allColumns
    modifies root, spare, root.allWindows, root.allColumns, root.allWorkspaces
    ensures root.State() == Float(old(root.State()), window, enable, focused, spare)
  {
    hide Inv, FloatOn, TakeOut, PutOnOutput, Focus, OnlyMoves, Calm, Pointed, FocusDefined, SetActiveWindow;
    ghost var t := root.State();
    Pointers(t, window);
    var workspace, output := window.workspace, window.output;
    if enable {
      FloatingEnable(root, window);
    } else {
      WindowDetach(root, window);
      AddOnOutput(root, workspace, window, output, spare);
    }
    if focused {
      FocusIs(root.State(), workspace, window);
      WorkspaceSetActiveWindow(root, workspace, window);
    }
  }

  // ---------------------------------------------------------------------
  // src/commands/move.c
  // ---------------------------------------------------------------------

  method MoveWindowToColumn(root: Root, window: Window, column: Column, direction: Option<Direction>)
    requires Inv(root.State()) && IsPlaced(root.State(), window) && Attached(root.State(), column)
    modifies root.allWindows, root.allColumns, root.allWorkspaces
    ensures root.State() == MoveToColumn(old(root.State()), window, column, direction)
  {
    hide Inv, Calm, OnlyMoves, ColumnsPersist, Attached, InsertChild;
    ghost var t := root.State();
    Pointers(t, window);
    if window.column == column {
      return;
    }
    var end := |column.children|;
    WindowDetach(root, window);
    Persists(t, root.State(), window, column);
    if direction == Some(Down) {
      ColumnInsertChild(root, column, window, 0);
    } else if direction == Some(Up) {
      ColumnInsertChild(root, column, window, end);
    } else {
      AddBehindActive(root, column, window);
    }
  }

  lemma Persists(t: Tree, u: Tree, w: Window, c: Column)
    requires Calm(t, u, w) && Attached(t, c)
    ensures Attached(u, c)
  {
  }

  method MoveWindowToNewColumn(
    root: Root, window: Window, workspace: Workspace, output: Option<nat>, index: nat, spare: Column,
    direction: Option<Direction>)
    requires Inv(root.State()) && IsPlaced(root.State(), window) && output.Some?
    requires workspace in root.workspaces && spare !in root.allColumns && index <= |workspace.columns|
    modifies root, spare, root.allWindows, root.allColumns, root.allWorkspaces
    ensures root.allWindows == old(root.allWindows) && root.allWorkspaces == old(root.allWorkspaces)
    ensures root.allColumns == old(root.allColumns) + {spare}
    ensures workspace in old(root.State()).workspaces
    ensures root.State()
            == MoveToColumn(NewColumn(old(root.State()), workspace, output, index, spare), window, spare, direction)
  {
    assert workspace in root.State().workspaces;
    hide Inv, MoveToColumn, Attached, NewColumn;
    InsertNewColumn(root, workspace, output, index, spare);
    MoveWindowToColumn(root, window, spare, direction);
  }

  /** The target column of the other workspace, made first if need be. */
  method MoveTiledToWorkspace(root: Root, window: Window, workspace: Workspace, spare: Column)
    requires Inv(root.State()) && IsPlaced(root.State(), window) && IsTiled(root.State(), window)
    requires window.workspace != workspace
    requires workspace in root.workspaces && spare !in root.allColumns
    modifies root, spare, root.allWindows, root.allColumns, root.allWorkspaces
    ensures root.allWindows == old(root.allWindows) && root.allWorkspaces == old(root.allWorkspaces)
    ensures old(root.allColumns) <= root.allColumns <= old(root.allColumns) + {spare}
    ensures root.State() == MoveToWorkspace(old(root.State()), window, workspace, spare)
  {
    hide Inv, OnlyMoves, ColumnsPersist, ColumnsOk, TargetColumn, Attached, NewColumn, MoveToColumn, Calm;
    ghost var t := root.State();
    CanSwitch(t, workspace);
    OnSomeOutput(t, window);
    var column := ChooseColumn(root, workspace, window.output);
    if column == null {
      MoveWindowToNewColumn(root, window, workspace, window.output, 0, spare, None);
    } else {
      InWorkspace(t, workspace, column);
      MoveWindowToColumn(root, window, column, None);
    }
  }

  lemma OnSomeOutput(t: Tree, w: Window)
    requires Inv(t) && IsPlaced(t, w)
    ensures t.windows[w].output.Some?
  {
    Pointers(t, w);
  }

  lemma CanFloatThere(t: Tree, w: Window, s: Workspace)
    requires Inv(t) && IsPlaced(t, w) && s in t.listed
    ensures CanFloat(TakeOut(t, w), s, w)
  {
    Pointers(t, w);
  }

  method MoveFloatingToWorkspace(root: Root, window: Window, workspace: Workspace)
    requires Inv(root.State()) && IsPlaced(root.State(), window)
    requires CanFloat(TakeOut(root.State(), window), workspace, window)
    modifies root.allWindows, root.allColumns, root.allWorkspaces
    ensures root.State() == PutFloating(TakeOut(old(root.State()), window), workspace, window)
  {
    hide Inv, TakeOut, AddFloating;
    WindowDetach(root, window);
    FloatingInTree(root.State(), workspace);
    WorkspaceAddFloating(root, workspace, window);
  }

  method MoveWindowToWorkspace(root: Root, window: Window, workspace: Workspace, spare: Column)
    requires Inv(root.State()) && IsPlaced(root.State(), window)
    requires workspace in root.workspaces && spare !in root.allColumns
    modifies root, spare, root.allWindows, root.allColumns, root.allWorkspaces
    ensures root.allWindows == old(root.allWindows) && root.allWorkspaces == old(root.allWorkspaces)
    ensures old(root.allColumns) <= root.allColumns <= old(root.allColumns) + {spare}
    ensures root.State() == MoveToWorkspace(old(root.State()), window, workspace, spare)
  {
    ghost var t := root.State();
    assert workspace in t.workspaces && !t.workspaces[workspace].dead;
    hide Inv, OnlyMoves, ColumnsPersist, ColumnsOk, PutFloating, TargetColumn, MoveToColumn, NewColumn, Calm;
    if workspace == window.workspace {
    } else if window.column == null {
      CanFloatThere(t, window, workspace);
      MoveFloatingToWorkspace(root, window, workspace);
    } else {
      MoveTiledToWorkspace(root, window, workspace, spare);
    }
  }

  /** Considers a column, if any, and then a workspace for destruction. */
  method ConsiderBoth(root: Root, column: Column?, workspace: Workspace)
    requires Inv(root.State()) && workspace in root.allWorkspaces
    requires column != null ==> CanConsider(root.State(), column)
    modifies root, root.allWorkspaces
    ensures root.State() == CleanUp(old(root.State()), column, workspace)
  {
    hide Inv, Discard, ConsiderDestroyWorkspace;
    if column != null {
      AttachedIs(root.State(), column);
      ColumnConsiderDestroy(root, column);
    }
    ConsiderDestroyWorkspaceKeeps(root.State(), workspace);
    WorkspaceConsiderDestroy(root, workspace);
  }

  lemma AttachedIs(t: Tree, c: Column)
    requires Inv(t) && CanConsider(t, c)
    ensures t.columns[c].workspace != null && t.columns[c].workspace in t.workspaces
  {
    assert ChildrenOk(t, c);
  }

  /** The workspace branch of cmd_move_window. */
  method CmdMoveWindow(root: Root, window: Window, workspace: Workspace, spare: Column)
    requires Inv(root.State()) && IsPlaced(root.State(), window)
    requires workspace in root.workspaces && spare !in root.allColumns
    modifies root, spare, root.allWindows, root.allColumns, root.allWorkspaces
    ensures root.State() == SendToWorkspace(old(root.State()), window, workspace, spare)
  {
    hide Inv, OnlyMoves, MoveToWorkspace, Focus, CleanUp, ColumnsPersist, Attached, Pointed, FocusDefined, SetActiveWindow;
    hide SameLists;
    ghost var t := root.State();
    Pointers(t, window);
    var oldColumn, oldWorkspace := window.column, window.workspace;
    MoveWindowToWorkspace(root, window, workspace, spare);
    ghost var moved := root.State();
    Pointers(moved, window);
    FocusIs(moved, workspace, window);
    WorkspaceSetActiveWindow(root, workspace, window);
    if oldColumn != null {
      StaysAttached(t, moved, oldColumn);
      SameListsPersist(moved, root.State());
      StaysAttached(moved, root.State(), oldColumn);
    }
    ConsiderBoth(root, oldColumn, oldWorkspace);
  }

  method WorkspaceGetColumnBefore(root: Root, workspace: Workspace, column: Column) returns (next: Column?)
    requires workspace in root.allWorkspaces && ColumnsOk(root.State(), workspace) && column in workspace.columns
    ensures next == ColumnBefore(root.State(), workspace.columns, column.output, IndexOf(workspace.columns, column))
  {
    hide IndexOf;
    ghost var t := root.State();
    var columns, i: nat := workspace.columns, IndexOf(workspace.columns, column);
    ghost var wanted := ColumnBefore(t, columns, column.output, i);
    next := null;
    while i > 0
      invariant next == null && i <= |columns| && wanted == ColumnBefore(t, columns, column.output, i)
    {
      i := i - 1;
      assert t.columns[columns[i]].output == columns[i].output;
      if columns[i].output == column.output {
        next := columns[i];
        break;
      }
    }
  }

  method WorkspaceGetColumnAfter(root: Root, workspace: Workspace, column: Column) returns (next: Column?)
    requires workspace in root.allWorkspaces && ColumnsOk(root.State(), workspace) && column in workspace.columns
    ensures next == ColumnBehind(root.State(), workspace.columns, column.output, IndexOf(workspace.columns, column) + 1)
  {
    hide IndexOf;
    ghost var t := root.State();
    var columns, i: nat := workspace.columns, IndexOf(workspace.columns, column) + 1;
    ghost var wanted := ColumnBehind(t, columns, column.output, i);
    next := null;
    while i < |columns|
      invariant next == null && i <= |columns| && wanted == ColumnBehind(t, columns, column.output, i)
    {
      assert t.columns[columns[i]].output == columns[i].output;
      if columns[i].output == column.output {
        next := columns[i];
        break;
      }
      i := i + 1;
    }
  }

  lemma SiblingStays(t: Tree, w: Window, i: nat, j: nat)
    requires Inv(t) && IsPlaced(t, w) && t.windows[w].column in t.columns
    requires var children := t.columns[t.windows[w].column].children;
             i < |children| && j < |children| && children[i] == w && (j == i + 1 || i == j + 1)
    ensures var c := t.windows[w].column;
            var sibling, out := t.columns[c].children[j], TakeOut(t, w);
            && IsChild(t, c, w) && Attached(out, c) && IsTiled(out, sibling)
            && out.windows[sibling].column == c && IsChild(out, c, sibling) && !out.windows[w].dead
  {
    hide Insert, Swapped, Remove, IndexOf, WindowsLinked, ColumnsLinked, FloatingLinked;
    Pointers(t, w);
    var c := t.windows[w].column;
    var children := t.columns[c].children;
    assert ChildrenOk(t, c);
    PastNeighbour(children, i, j);
    var out := TakeOut(t, w);
    assert ChildrenOk(out, c);
  }

  /** In a column, column_add_sibling is an insertion next to the sibling. */
  lemma AddSiblingIsPut(t: Tree, c: Column, w: Window, sibling: Window, behind: bool)
    requires Inv(t) && Attached(t, c) && Detached(t, w) && !t.windows[w].dead
    requires IsChild(t, c, sibling) && t.windows[sibling].column == c
    ensures AddSibling(t, sibling, w, behind)
            == PutInColumn(t, c, w, IndexOf(t.columns[c].children, sibling) + if behind then 1 else 0)
  {
    hide Inv, Attached, InsertChild, IndexOf, Calm;
  }

  lemma MovePastIs(t: Tree, w: Window, i: nat, j: nat)
    requires Inv(t) && IsPlaced(t, w) && t.windows[w].column in t.columns
    requires var children := t.columns[t.windows[w].column].children;
             i < |children| && j < |children| && children[i] == w && (j == i + 1 || i == j + 1)
    requires var c := t.windows[w].column;
             var sibling, out := t.columns[c].children[j], TakeOut(t, w);
             Attached(out, c) && !out.windows[w].dead && IsChild(out, c, sibling) && out.windows[sibling].column == c
    ensures AddSibling(TakeOut(t, w), t.columns[t.windows[w].column].children[j], w, i < j) == MovePast(t, w, i, j)
  {
    hide Inv, AddSibling, TakeOut, PutInColumn, IndexOf, Attached, Swapped, Insert, Calm;
    AddSiblingIsPut(TakeOut(t, w), t.windows[w].column, w, t.columns[t.windows[w].column].children[j], i < j);
  }

  /** Up or down, to the other side of the sibling. */
  method MovePastSibling(root: Root, window: Window, i: nat, j: nat)
    requires Inv(root.State()) && IsPlaced(root.State(), window) && window.column in root.allColumns
    requires var children := window.column.children;
             i < |children| && j < |children| && children[i] == window && (j == i + 1 || i == j + 1)
    modifies root.allWindows, root.allColumns, root.allWorkspaces
    ensures root.State() == MovePast(old(root.State()), window, i, j)
  {
    hide Inv, MovePast, AddSibling, TakeOut, Attached;
    SiblingStays(root.State(), window, i, j);
    MovePastIs(root.State(), window, i, j);
    var sibling := window.column.children[j];
    WindowDetach(root, window);
    ColumnAddSibling(root, sibling, window, i < j);
  }

  method FindNeighbour(root: Root, window: Window, left: bool) returns (next: Column?)
    requires Inv(root.State()) && IsPlaced(root.State(), window) && IsTiled(root.State(), window)
    ensures next == Neighbour(root.State(), window, left)
  {
    hide Inv, ColumnBefore, ColumnBehind, IndexOf, ColumnsOk, Attached;
    Pointers(root.State(), window);
    if left {
      next := WorkspaceGetColumnBefore(root, window.workspace, window.column);
    } else {
      next := WorkspaceGetColumnAfter(root, window.workspace, window.column);
    }
  }

  method MoveToNeighbour(root: Root, window: Window, left: bool, spare: Column) returns (moved: bool)
    requires Inv(root.State()) && IsPlaced(root.State(), window) && IsTiled(root.State(), window)
    requires spare !in root.allColumns
    modifies root, spare, root.allWindows, root.allColumns, root.allWorkspaces
    ensures root.allWindows == old(root.allWindows) && root.allWorkspaces == old(root.allWorkspaces)
    ensures old(root.allColumns) <= root.allColumns <= old(root.allColumns) + {spare}
    ensures moved == CanGo(old(root.State()), window, if left then Left else Right)
    ensures root.State() == if moved then MoveSideways(old(root.State()), window, left, spare) else old(root.State())
  {
    hide Inv, NewColumn, MoveToColumn, Neighbour, ColumnsPersist, OnlyMoves, Attached, IndexOf, ColumnsOk;
    ghost var t := root.State();
    Pointers(t, window);
    var oldColumn, workspace := window.column, window.workspace;
    var next := FindNeighbour(root, window, left);
    moved := next != null || |oldColumn.children| != 1;
    if next != null {
      InWorkspace(t, workspace, next);
      MoveWindowToColumn(root, window, next, Some(if left then Left else Right));
    } else if moved {
      MoveWindowToNewColumn(root, window, workspace, oldColumn.output,
                            if left then 0 else |workspace.columns|, spare, Some(if left then Left else Right));
    }
  }

  /** The part of window_tiling_move_in_direction that stays among the window's neighbours. */
  method MoveAmongNeighbours(root: Root, window: Window, direction: Direction, spare: Column) returns (moved: bool)
    requires Inv(root.State()) && IsPlaced(root.State(), window) && IsTiled(root.State(), window)
    requires spare !in root.allColumns
    modifies root, spare, root.allWindows, root.allColumns, root.allWorkspaces
    ensures root.allWindows == old(root.allWindows) && root.allWorkspaces == old(root.allWorkspaces)
    ensures old(root.allColumns) <= root.allColumns <= old(root.allColumns) + {spare}
    ensures (root.State(), moved) == MoveWithin(old(root.State()), window, direction, spare)
  {
    hide Inv, MoveSideways, MovePast, IndexOf;
    Pointers(root.State(), window);
    if direction == Left || direction == Right {
      moved := MoveToNeighbour(root, window, direction == Left, spare);
    } else {
      var i := IndexOf(window.column.children, window);
      moved := if direction == Up then i > 0 else i + 1 < |window.column.children|;
      if moved {
        MovePastSibling(root, window, i, if direction == Up then i - 1 else i + 1);
      }
    }
  }

  lemma LastOneMore(t: Tree, columns: seq<Column>, output: Option<nat>, i: nat)
    requires i < |columns| && forall c :: c in columns ==> c in t.columns
    ensures ColumnBefore(t, columns, output, i + 1)
            == if t.columns[columns[i]].output == output then columns[i] else ColumnBefore(t, columns, output, i)
  {
  }

  lemma FirstOneMore(t: Tree, columns: seq<Column>, output: Option<nat>, i: nat)
    requires i < |columns| && forall c :: c in columns ==> c in t.columns
    ensures FirstColumnOn(t, columns[i..], output)
            == if t.columns[columns[i]].output == output then columns[i] else FirstColumnOn(t, columns[i + 1..], output)
  {
    assert columns[i..][1..] == columns[i + 1..];
  }

  /** The loop of window_tiling_move_to_output_from_direction, given the window's own output. */
  method ChooseEdgeColumn(root: Root, window: Window, direction: Direction) returns (column: Column)
    requires Inv(root.State()) && IsPlaced(root.State(), window) && IsTiled(root.State(), window)
    requires window.workspace in root.allWorkspaces && window.workspace.activeColumn != null
    ensures column == EdgeColumn(root.State(), window, direction)
  {
    hide Inv, FirstColumnOn, ColumnBefore, Attached;
    ghost var t := root.State();
    Pointers(t, window);
    OwnColumnCounts(t, window);
    var workspace, output := window.workspace, window.output;
    var columns := workspace.columns;
    var chosen: Column? := null;
    LoopStarts(t, columns, output);
    for i := 0 to |columns|
      invariant if direction == Left then chosen == ColumnBefore(t, columns, output, i)
                else FirstColumnOn(t, columns, output) == if chosen == null then FirstColumnOn(t, columns[i..], output)
                                                          else chosen
    {
      LastOneMore(t, columns, output, i);
      FirstOneMore(t, columns, output, i);
      assert t.columns[columns[i]].output == columns[i].output;
      if columns[i].output != output {
        continue;
      }
      if direction == Left || chosen == null {
        chosen := columns[i];
      }
    }
    assert t.columns[workspace.activeColumn].output == workspace.activeColumn.output;
    if workspace.activeColumn.output == output && direction != Up && direction == Down {
      chosen := workspace.activeColumn;
    }
    column := chosen;
  }

  lemma LoopStarts(t: Tree, columns: seq<Column>, output: Option<nat>)
    requires forall c :: c in columns ==> c in t.columns
    ensures columns[0..] == columns && columns[|columns|..] == []
    ensures ColumnBefore(t, columns, output, 0) == null && FirstColumnOn(t, [], output) == null
  {
  }

  /** window_tiling_move_in_direction; the heading says whether root_get_output_in_direction finds an output. */
  method WindowTilingMoveInDirection(root: Root, window: Window, h: Heading, spare: Column) returns (moved: bool)
    requires Inv(root.State()) && IsPlaced(root.State(), window) && IsTiled(root.State(), window)
    requires spare !in root.allColumns && CanCross(root.State(), window, h)
    modifies root, spare, root.allWindows, root.allColumns, root.allWorkspaces
    ensures root.allWindows == old(root.allWindows) && root.allWorkspaces == old(root.allWorkspaces)
    ensures old(root.allColumns) <= root.allColumns <= old(root.allColumns) + {spare}
    ensures (root.State(), moved) == MoveInDirection(old(root.State()), window, h, spare)
  {
    hide Inv, MoveWithin, MoveBeyond, CanGo, Attached, ColumnsOk;
    ghost var t := root.State();
    Pointers(t, window);
    moved := MoveAmongNeighbours(root, window, h.direction, spare);
    if !moved && h.beyond {
      MoveToEdge(root, window, h.direction);
      moved := true;
    }
  }

  method MoveToEdge(root: Root, window: Window, direction: Direction)
    requires Inv(root.State()) && IsPlaced(root.State(), window) && IsTiled(root.State(), window)
    requires window.workspace in root.allWorkspaces && window.workspace.activeColumn != null
    modifies root.allWindows, root.allColumns, root.allWorkspaces
    ensures root.State() == MoveBeyond(old(root.State()), window, direction)
  {
    hide Inv, MoveToColumn, EdgeColumn, Attached, OnlyMoves, ColumnsPersist;
    var column := ChooseEdgeColumn(root, window, direction);
    InWorkspace(root.State(), window.workspace, column);
    MoveWindowToColumn(root, window, column, Some(direction));
  }

  /** The clean-up after a move, and the focus that goes along. */
  method TidyAndRefocus(root: Root, window: Window, oldColumn: Column)
    requires Inv(root.State()) && IsPlaced(root.State(), window) && Attached(root.State(), oldColumn)
    modifies root, root.allWindows, root.allColumns, root.allWorkspaces
    ensures root.allWindows == old(root.allWindows) && root.allColumns == old(root.allColumns)
    ensures root.allWorkspaces == old(root.allWorkspaces)
    ensures root.State() == FocusWindow(Discard(old(root.State()), oldColumn), window)
  {
    hide Inv, Discard, FocusWindow, Pointed, CanShow, SetFocusedWindow;
    ColumnConsiderDestroy(root, oldColumn);
    FocusWindowIs(root.State(), window);
    RootSetFocusedWindow(root, window);
  }

  // ---------------------------------------------------------------------
  // src/input/seatop_move.c
  // ---------------------------------------------------------------------

  method DoDetach(root: Root, window: Window)
    requires Inv(root.State()) && IsPlaced(root.State(), window)
    modifies root, root.allWindows, root.allColumns, root.allWorkspaces
    ensures root.State() == DragDetach(old(root.State()), window)
  {
    hide Inv, FloatOn, FocusWindow, Raise, OnlyMoves, Pointed, CanShow, SetFocusedWindow;
    Pointers(root.State(), window);
    if window.column != null {
      FloatingEnable(root, window);
      FocusWindowIs(root.State(), window);
      RootSetFocusedWindow(root, window);
    }
    Pointers(root.State(), window);
    WindowRaiseFloating(root, window);
  }

  lemma TargetStays(t: Tree, w: Window, target: Window)
    requires Inv(t) && IsPlaced(t, w) && IsFloating(t, w) && IsTiled(t, target)
    ensures var out, c := TakeOut(t, w), t.windows[target].column;
            && IsTiled(out, target) && out.windows[target].column == c && IsChild(out, c, target)
            && Attached(out, c) && out.columns == t.columns && c in t.columns && target in t.columns[c].children
  {
    TiledPointers(t, target);
    FloatingOut(t, w);
  }

  lemma DropsBehind(t: Tree, w: Window, c: Column, target: Window)
    requires Inv(t) && CanDrop(t, w, c, target)
    requires IsTiled(TakeOut(t, w), target) && TakeOut(t, w).windows[target].column == t.windows[target].column
    requires IsChild(TakeOut(t, w), t.windows[target].column, target)
    ensures DropInColumn(t, w, c, target) == AddSibling(TakeOut(t, w), target, w, true)
  {
    hide Inv, InsertChild, TakeOut, OnlyMoves, Attached, Detached, Calm;
    FloatingOut(t, w);
  }

  lemma DropsFirst(t: Tree, w: Window, c: Column)
    requires Inv(t) && CanDrop(t, w, c, null)
    ensures c in TakeOut(t, w).columns
    ensures DropInColumn(t, w, c, null) == InsertChild(TakeOut(t, w), c, w, 0)
  {
    FloatingOut(t, w);
  }

  /** The window joins the column: behind the target, or else first in the destination. */
  method InsertDropped(root: Root, window: Window, column: Column, target: Window?)
    requires Inv(root.State()) && CanDrop(root.State(), window, column, target)
    modifies root.allWindows, root.allColumns, root.allWorkspaces
    ensures root.State() == DropInColumn(old(root.State()), window, column, target)
  {
    ghost var t := root.State();
    Pointers(t, window);
    FloatingOut(t, window);
    if target != null {
      TargetStays(t, window, target);
      DropsBehind(t, window, column, target);
    } else {
      DropsFirst(t, window, column);
    }
    hide Inv, TakeOut, Attached, InsertChild, AddSibling, DropInColumn, CanDrop;
    WindowDetach(root, window);
    if target != null {
      ColumnAddSibling(root, target, window, true);
    } else {
      ColumnInsertChild(root, column, window, 0);
    }
  }

  /** In whatever order the drop leaves the columns, pointers agree well enough for the focus to move. */
  lemma DropPoints(t: Tree, w: Window, c: Column, target: Window?)
    requires Inv(t) && CanDrop(t, w, c, target)
    ensures Pointed(DropInColumn(t, w, c, target))
  {
    if target != null || Attached(t, c) {
      DropKeeps(t, w, c, target);
      InvPointed(DropInColumn(t, w, c, target));
    } else {
      FloatingOut(t, w);
      InvPointed(TakeOut(t, w));
      assert DropInColumn(t, w, c, target) == InsertChild(TakeOut(t, w), c, w, 0);
      hide DropInColumn, Inv, TakeOut, Pointed, Attached;
      InsertPoints(TakeOut(t, w), c, w);
    }
  }

  lemma InsertPoints(t: Tree, c: Column, w: Window)
    requires Pointed(t) && Detached(t, w) && !t.windows[w].dead && c in t.columns
    ensures Pointed(InsertChild(t, c, w, 0))
  {
    var u := InsertChild(t, c, w, 0);
    assert ChildrenAgree(t, c);
    InsertKeepsNoDuplicates(t.columns[c].children, 0, w);
    forall d | d in u.columns
      ensures ChildrenAgree(u, d)
    {
      assert ChildrenAgree(t, d);
    }
    InsertLinksRest(t, c, w);
  }

  lemma InsertLinksRest(t: Tree, c: Column, w: Window)
    requires Pointed(t) && Detached(t, w) && c in t.columns
    ensures var u := InsertChild(t, c, w, 0); ColumnsLinked(u) && FloatingLinked(u) && WindowsLinked(u)
  {
    var u := InsertChild(t, c, w, 0);
    forall s | s in u.workspaces
      ensures ColumnsOk(u, s) && FloatingOk(u, s)
    {
      assert ColumnsOk(t, s) && FloatingOk(t, s);
    }
    forall v | v in u.windows
      ensures WindowOk(u, v)
    {
      InsertMembers(t.columns[c].children, 0, w, v);
      assert WindowOk(t, v);
    }
  }

  /** The drop on a column of finalize_move. */
  method DropOnColumn(root: Root, window: Window, column: Column, target: Window?)
    requires Inv(root.State()) && CanDrop(root.State(), window, column, target)
    modifies root, root.allWindows, root.allColumns, root.allWorkspaces
    ensures root.State() == Drop(old(root.State()), window, column, target)
  {
    hide Inv, Pointed, CanDrop, CanShow, DropInColumn, SetFocusedWindow, ActiveOnOutput;
    ghost var t := root.State();
    DropDefined(t, window, column, target);
    DropPoints(t, window, column, target);
    InsertDropped(root, window, column, target);
    RootSetFocusedWindow(root, window);
  }

  // ---------------------------------------------------------------------
  // src/desktop/xdg_shell.c
  // ---------------------------------------------------------------------

  method HandleSurfaceUnmap(root: Root, window: Window)
    requires Inv(root.State()) && IsPlaced(root.State(), window)
    modifies root, root.allWindows, root.allColumns, root.allWorkspaces
    ensures root.State() == Unmap(old(root.State()), window)
  {
    hide Inv, TakeOut, CleanUp, Attached, OnlyMoves, ColumnsPersist;
    ghost var t := root.State();
    Pointers(t, window);
    var column, workspace := window.column, window.workspace;
    WindowDetach(root, window);
    ghost var out := root.State();
    KillKeeps(out, window);
    window.dead := true;
    OneWindowChanged(root, out.windows, window);
    NoColumnChanged(root, out.columns);
    NoWorkspaceChanged(root, out.workspaces);
    assert column != null ==> Attached(root.State(), column) by {
      if column != null {
        Persists(t, out, window, column);
        KilledStays(out, window, column);
      }
    }
    ConsiderBoth(root, column, workspace);
  }

  lemma KilledStays(t: Tree, w: Window, c: Column)
    requires w in t.windows && Attached(t, c)
    ensures Attached(Kill(t, w), c)
  {
  }

  /** Behind the active tiling window of the workspace, or into a new first column. */
  method AddBehindFocus(root: Root, workspace: Workspace, window: Window, output: Option<nat>, spare: Column)
    requires Inv(root.State()) && Detached(root.State(), window) && !window.dead
    requires workspace in root.workspaces && output.Some? && spare !in root.allColumns
    modifies root, spare, root.allWindows, root.allColumns, root.allWorkspaces
    ensures root.allWindows == old(root.allWindows) && root.allWorkspaces == old(root.allWorkspaces)
    ensures old(root.allColumns) <= root.allColumns <= old(root.allColumns) + {spare}
    ensures root.State() == PutBehindFocus(old(root.State()), workspace, window, output, spare)
  {
    hide Inv, Attached, ColumnsOk, PutBehindActive, NewColumn;
    ActiveColumnIs(root.State(), workspace);
    var column := workspace.activeColumn;
    if column != null && column.activeChild != null {
      AddBehindActive(root, column, window);
    } else {
      InsertNewColumn(root, workspace, output, 0, spare);
      AddBehindActive(root, spare, window);
    }
  }

  method HandleSurfaceMap(
    root: Root, window: Window, floating: bool, output: Option<nat>, focus: bool, spare: Column)
    requires CanMap(root.State(), window, floating, output) && spare !in root.allColumns
    modifies root, window, spare, root.allWindows, root.allColumns, root.allWorkspaces
    ensures root.State() == Map(old(root.State()), window, floating, output, focus, spare)
  {
    hide Inv, OnlyMoves, Calm, PutBehindFocus, FocusWindow, AddFloating, ColumnsOk, Pointed, CanShow, SetFocusedWindow;
    hide ColumnsPersist;
    ghost var t := root.State();
    ActiveIsListed(t);
    CreateWindowKeeps(t, window);
    WindowCreate(root, window);
    var workspace := root.activeWorkspace;
    if floating {
      FloatingInTree(root.State(), workspace);
      WorkspaceAddFloating(root, workspace, window);
    } else {
      AddBehindFocus(root, workspace, window, output, spare);
    }
    assert root.State() == MapUnfocused(t, window, floating, output, spare);
    if focus {
      FocusWindowIs(root.State(), window);
      RootSetFocusedWindow(root, window);
    }
  }
}
