/**
 * The operations on the tree's objects, field by field as the program does
 * them. Each is proved to do to the objects what its namesake of Tree.dfy does
 * to the picture, and so keeps the tree's invariant.
 */
module TreeOperations {
  import opened Seqs
  import opened Tree
  import opened TreeInvariant
  import opened TreeSteps
  import opened TreeCommands

  // ---------------------------------------------------------------------
  // src/tree/window.c
  // ---------------------------------------------------------------------

  method WindowReconcileTiling(window: Window, column: Column)
    modifies window
    ensures window.Value() == old(window.Value()).(workspace := column.workspace, column := column, output := column.output)
  {
    window.workspace := column.workspace;
    window.column := column;
    window.output := column.output;
  }

  /** For a window that already has the column's pointers nothing changes. */
  method WindowReconcileAgain(window: Window, column: Column)
    requires window.column == column && window.workspace == column.workspace && window.output == column.output
    modifies window
    ensures window.Value() == old(window.Value())
  {
    WindowReconcileTiling(window, column);
  }

  method WindowReconcileFloating(window: Window, workspace: Workspace)
    modifies window
    ensures window.Value() == old(window.Value()).(workspace := workspace, column := null)
  {
    window.workspace := workspace;
    window.column := null;
  }

  method WindowReconcileDetached(window: Window)
    modifies window
    ensures window.Value() == old(window.Value()).(workspace := null, column := null)
  {
    window.workspace := null;
    window.column := null;
  }

  // ---------------------------------------------------------------------
  // How the picture follows the objects
  // ---------------------------------------------------------------------

  lemma OneWindowChanged(root: Root, before: map<Window, WindowState>, window: Window)
    requires before.Keys == root.allWindows && window in root.allWindows
    requires forall w :: w in root.allWindows && w != window ==> w.Value() == before[w]
    ensures root.WindowStates() == before[window := window.Value()]
  {
  }

  lemma NoWindowChanged(root: Root, before: map<Window, WindowState>)
    requires before.Keys == root.allWindows
    requires forall w :: w in root.allWindows ==> w.Value() == before[w]
    ensures root.WindowStates() == before
  {
  }

  lemma OneColumnChanged(root: Root, before: map<Column, ColumnState>, column: Column)
    requires before.Keys == root.allColumns && column in root.allColumns
    requires forall c :: c in root.allColumns && c != column ==> c.Value() == before[c]
    ensures root.ColumnStates() == before[column := column.Value()]
  {
  }

  lemma NoColumnChanged(root: Root, before: map<Column, ColumnState>)
    requires before.Keys == root.allColumns
    requires forall c :: c in root.allColumns ==> c.Value() == before[c]
    ensures root.ColumnStates() == before
  {
  }

  lemma OneWorkspaceChanged(root: Root, before: map<Workspace, WorkspaceState>, workspace: Workspace)
    requires before.Keys == root.allWorkspaces && workspace in root.allWorkspaces
    requires forall s :: s in root.allWorkspaces && s != workspace ==> s.Value() == before[s]
    ensures root.WorkspaceStates() == before[workspace := workspace.Value()]
  {
  }

  lemma NoWorkspaceChanged(root: Root, before: map<Workspace, WorkspaceState>)
    requires before.Keys == root.allWorkspaces
    requires forall s :: s in root.allWorkspaces ==> s.Value() == before[s]
    ensures root.WorkspaceStates() == before
  {
  }

  lemma ChildrenPoint(t: Tree, c: Column)
    requires Pointed(t) && c in t.columns
    ensures ChildrenAgree(t, c)
  {
  }

  /** A window in a list already has the pointers that reconciling gives it. */
  lemma AlreadyTiled(t: Tree, c: Column, w: Window)
    requires Pointed(t) && IsChild(t, c, w)
    ensures t.windows[w] == Tiled(t, w, c)
  {
    assert ChildrenAgree(t, c);
  }

  // ---------------------------------------------------------------------
  // src/tree/column.c
  // ---------------------------------------------------------------------

  method ColumnInsertChild(root: Root, column: Column, window: Window, i: nat)
    requires column in root.allColumns && Detached(root.State(), window) && !window.dead && i <= |column.children|
    modifies column, window
    ensures root.State() == InsertChild(old(root.State()), column, window, i)
  {
    ghost var t := root.State();
    if |column.children| == 0 {
      column.activeChild := window;
    }
    column.children := Insert(column.children, i, window);
    WindowReconcileTiling(window, column);
    OneWindowChanged(root, t.windows, window);
    OneColumnChanged(root, t.columns, column);
    NoWorkspaceChanged(root, t.workspaces);
  }

  method ColumnAddSibling(root: Root, sibling: Window, window: Window, behind: bool)
    requires Inv(root.State()) && IsTiled(root.State(), sibling) && IsChild(root.State(), sibling.column, sibling)
    requires Detached(root.State(), window) && !window.dead
    modifies sibling, sibling.column, window
    ensures root.State() == AddSibling(old(root.State()), sibling, window, behind)
  {
    hide Inv, InsertChild, IndexOf;
    var column := sibling.column;
    var index := IndexOf(column.children, sibling) + if behind then 1 else 0;
    InsertBeside(root, column, sibling, window, index);
  }

  /** The insertion of column_add_sibling, and the reconciling of both windows. */
  method InsertBeside(root: Root, column: Column, sibling: Window, window: Window, index: nat)
    requires Inv(root.State()) && IsChild(root.State(), column, sibling) && sibling != window
    requires window in root.allWindows && index <= |column.children|
    modifies sibling, column, window
    ensures root.State() == InsertChild(old(root.State()), column, window, index)
  {
    hide Inv, Insert, ChildrenAgree, Pointed;
    InvPointed(root.State());
    ghost var t := root.State();
    column.children := Insert(column.children, index, window);
    AlreadyTiled(t, column, sibling);
    WindowReconcileAgain(sibling, column);
    WindowReconcileTiling(window, column);
    OneWindowChanged(root, t.windows, window);
    OneColumnChanged(root, t.columns, column);
    NoWorkspaceChanged(root, t.workspaces);
  }

  method ColumnAddChild(root: Root, column: Column, window: Window)
    requires column in root.allColumns && Detached(root.State(), window) && !window.dead
    modifies column, window
    ensures root.State() == InsertChild(old(root.State()), column, window, |old(column.children)|)
  {
    ghost var t := root.State();
    if |column.children| == 0 {
      column.activeChild := window;
    }
    column.children := column.children + [window];
    assert column.children == Insert(t.columns[column].children, |t.columns[column].children|, window);
    WindowReconcileTiling(window, column);
    OneWindowChanged(root, t.windows, window);
    OneColumnChanged(root, t.columns, column);
    NoWorkspaceChanged(root, t.workspaces);
  }

  /** The choice of the next active child, once the window left the list of children. */
  method ActivateNext(root: Root, column: Column, window: Window, index: nat, ghost t: Tree)
    requires Inv(t) && IsChild(t, column, window) && index == IndexOf(t.columns[column].children, window)
    requires column.Value() == t.columns[column].(children := Remove(t.columns[column].children, window))
    requires forall w :: w in column.children ==> w in t.windows && w.Value() == t.windows[w]
    modifies column, column.children
    ensures column.Value() == RemoveChild(t, column, window).columns[column]
    ensures forall w :: w in old(column.children) ==> w.Value() == old(w.Value())
  {
    hide Inv, Pointed;
    InvPointed(t);
    if column.activeChild == window {
      if |column.children| > 0 {
        column.activeChild := column.children[if index > 0 then index - 1 else 0];
        ChildrenAre(t, column);
        RemoveMembers(t.columns[column].children, window, column.activeChild);
        AlreadyTiled(t, column, column.activeChild);
        WindowReconcileTiling(column.activeChild, column);
      } else {
        column.activeChild := null;
      }
    }
  }

  lemma RestOfChildren(t: Tree, c: Column, w: Window)
    requires c in t.columns && ChildrenOk(t, c) && w in t.columns[c].children
    ensures forall v :: v in Remove(t.columns[c].children, w) ==>
              v in t.windows && v in t.columns[c].children && v != w
  {
    forall v | v in Remove(t.columns[c].children, w)
      ensures v in t.windows && v in t.columns[c].children && v != w
    {
      RemoveMembers(t.columns[c].children, w, v);
    }
  }

  lemma RemoveChildIs(t: Tree, c: Column, w: Window)
    requires IsChild(t, c, w)
    ensures RemoveChild(t, c, w)
            == t.(windows := t.windows[w := t.windows[w].(workspace := null, column := null)],
                  columns := t.columns[c := RemoveChild(t, c, w).columns[c]])
    ensures c in RemoveChild(t, c, w).columns
  {
  }

  method ColumnRemoveChild(root: Root, column: Column, window: Window)
    requires Inv(root.State()) && IsChild(root.State(), column, window)
    modifies column, column.children
    ensures root.State() == RemoveChild(old(root.State()), column, window)
  {
    hide Inv, NextActive, RemoveChild;
    ghost var t := root.State();
    ChildrenAre(t, column);
    var index := IndexOf(column.children, window);
    column.children := column.children[..index] + column.children[index + 1..];
    RestOfChildren(t, column, window);
    hide Remove, IndexOf;
    ActivateNext(root, column, window, index, t);
    RemoveChildIs(t, column, window);
    WindowReconcileDetached(window);
    OneWindowChanged(root, t.windows, window);
    OneColumnChanged(root, t.columns, column);
    NoWorkspaceChanged(root, t.workspaces);
  }

  method ColumnSetActiveChild(root: Root, column: Column, window: Window)
    requires Pointed(root.State()) && IsChild(root.State(), column, window)
    modifies column, column.children
    ensures root.State() == SetActiveChild(old(root.State()), column, window)
  {
    hide Pointed;
    ghost var t := root.State();
    ChildrenPoint(t, column);
    var prevActive := column.activeChild;
    if window != prevActive {
      column.activeChild := window;
      AlreadyTiled(t, column, window);
      WindowReconcileTiling(window, column);
      if prevActive != null {
        AlreadyTiled(t, column, prevActive);
        WindowReconcileTiling(prevActive, column);
      }
    }
    NoWindowChanged(root, t.windows);
    OneColumnChanged(root, t.columns, column);
    NoWorkspaceChanged(root, t.workspaces);
  }

  // ---------------------------------------------------------------------
  // src/tree/workspace.c
  // ---------------------------------------------------------------------

  lemma FloatingAre(t: Tree, s: Workspace)
    requires Pointed(t) && s in t.workspaces
    ensures FloatingOk(t, s) && ColumnsOk(t, s)
  {
  }

  /** The window that has the focus of a column that is in the tree is itself a child of it. */
  lemma ActiveChildIs(t: Tree, s: Workspace)
    requires Pointed(t) && s in t.workspaces
    ensures var c := t.workspaces[s].activeColumn;
            c != null ==> c in t.columns && (t.columns[c].activeChild != null ==> IsChild(t, c, t.columns[c].activeChild))
  {
    assert ColumnsOk(t, s);
    var c := t.workspaces[s].activeColumn;
    if c != null {
      assert ChildrenAgree(t, c);
    }
  }

  method WorkspaceAddFloating(root: Root, workspace: Workspace, window: Window)
    requires Inv(root.State()) && CanFloat(root.State(), workspace, window)
    modifies workspace, window, workspace.floating
    ensures root.State() == AddFloating(old(root.State()), workspace, window)
  {
    hide Inv, Pointed;
    InvPointed(root.State());
    ghost var t := root.State();
    FloatingAre(t, workspace);
    var prevActiveFloating := if |workspace.floating| == 0 then null else workspace.floating[|workspace.floating| - 1];
    workspace.floating := workspace.floating + [window];
    if window.output.None? {
      window.output := root.activeOutput;
    }
    WindowReconcileFloating(window, workspace);
    assert window.Value() == AddFloating(t, workspace, window).windows[window];
    if prevActiveFloating != null {
      WindowReconcileFloating(prevActiveFloating, workspace);
    }
    OneWindowChanged(root, t.windows, window);
    NoColumnChanged(root, t.columns);
    OneWorkspaceChanged(root, t.workspaces, workspace);
  }

  /** The window that has the focus after a floating one left is reconciled, to no effect. */
  method ReconcileNext(root: Root, workspace: Workspace, ghost t: Tree)
    requires Inv(t) && workspace in t.workspaces
    requires t.windows == root.WindowStates() && t.columns == root.ColumnStates()
    requires workspace.activeColumn == t.workspaces[workspace].activeColumn
    requires forall w :: w in workspace.floating ==> w in t.workspaces[workspace].floating
    modifies root.allWindows
    ensures forall w :: w in root.allWindows ==> w.Value() == old(w.Value())
  {
    hide Inv, Pointed;
    InvPointed(t);
    FloatingAre(t, workspace);
    ActiveChildIs(t, workspace);
    if |workspace.floating| == 0 {
      if workspace.activeColumn != null && workspace.activeColumn.activeChild != null {
        var next := workspace.activeColumn.activeChild;
        AlreadyTiled(t, workspace.activeColumn, next);
        ChildrenPoint(t, workspace.activeColumn);
        WindowReconcileTiling(next, next.column);
      }
    } else {
      WindowReconcileFloating(workspace.floating[|workspace.floating| - 1], workspace);
    }
  }

  /** The floating list without the window, and the focus mode that goes with it. */
  method TakeOffFloating(workspace: Workspace, window: Window)
    requires window in workspace.floating && NoDuplicates(workspace.floating)
    modifies workspace
    ensures var was := old(workspace.Value());
            var rest := Remove(was.floating, window);
            workspace.Value() == was.(floating := rest, focusMode := if rest == [] then Tiling else was.focusMode)
    ensures forall w :: w in workspace.floating ==> w in old(workspace.floating)
  {
    ghost var was := workspace.floating;
    var index := IndexOf(workspace.floating, window);
    workspace.floating := workspace.floating[..index] + workspace.floating[index + 1..];
    if |workspace.floating| == 0 {
      workspace.focusMode := Tiling;
    }
    forall w | w in workspace.floating
      ensures w in was
    {
      RemoveMembers(was, window, w);
    }
  }

  method WorkspaceRemoveFloating(root: Root, workspace: Workspace, window: Window)
    requires Inv(root.State()) && Floats(root.State(), workspace, window)
    modifies workspace, root.allWindows
    ensures root.State() == RemoveFloating(old(root.State()), workspace, window)
  {
    hide Inv, Remove, IndexOf, FloatingOk, ColumnsOk, Pointed;
    InvPointed(root.State());
    ghost var t := root.State();
    FloatingAre(t, workspace);
    TakeOffFloating(workspace, window);
    NoWindowChanged(root, t.windows);
    NoColumnChanged(root, t.columns);
    ReconcileNext(root, workspace, t);
    WindowReconcileDetached(window);
    OneWindowChanged(root, t.windows, window);
    NoColumnChanged(root, t.columns);
    OneWorkspaceChanged(root, t.workspaces, workspace);
  }

  method WindowDetach(root: Root, window: Window)
    requires Inv(root.State()) && window in root.allWindows
    modifies root.allWindows, root.allColumns, root.allWorkspaces
    ensures root.State() == TakeOut(old(root.State()), window)
  {
    hide Inv;
    ghost var t := root.State();
    if window.workspace == null {
      DetachKeeps(t, window);
      return;
    }
    Pointers(t, window);
    if window.column != null {
      ChildrenAre(t, window.column);
      ColumnRemoveChild(root, window.column, window);
    } else {
      WorkspaceRemoveFloating(root, window.workspace, window);
    }
  }

  method WindowRaiseFloating(root: Root, window: Window)
    requires Inv(root.State()) && window in root.allWindows
    modifies root.allWorkspaces
    ensures WindowOk(old(root.State()), window) && root.State() == Raise(old(root.State()), window)
  {
    ghost var t := root.State();
    assert WindowOk(t, window);
    hide Inv;
    if window.workspace == null || window.column != null {
      return;
    }
    var workspace := window.workspace;
    workspace.floating := Remove(workspace.floating, window) + [window];
    NoWindowChanged(root, t.windows);
    NoColumnChanged(root, t.columns);
    OneWorkspaceChanged(root, t.workspaces, workspace);
  }

  /** workspace_insert_column_first, _last, _before and _after, once they know the index. */
  method WorkspaceInsertColumn(root: Root, workspace: Workspace, output: Option<nat>, column: Column, index: nat)
    requires Inv(root.State()) && CanInsertColumn(root.State(), workspace, column, output, index)
    modifies workspace, column
    ensures root.State() == InsertColumn(old(root.State()), workspace, column, output, index)
  {
    hide Inv, Insert;
    ghost var t := root.State();
    workspace.columns := Insert(workspace.columns, index, column);
    column.workspace := workspace;
    column.output := output;
    NoWindowChanged(root, t.windows);
    OneColumnChanged(root, t.columns, column);
    OneWorkspaceChanged(root, t.workspaces, workspace);
  }

  method WorkspaceConsiderDestroy(root: Root, workspace: Workspace)
    requires workspace in root.allWorkspaces
    modifies root, workspace
    ensures root.allWindows == old(root.allWindows) && root.allColumns == old(root.allColumns)
    ensures root.allWorkspaces == old(root.allWorkspaces)
    ensures root.State() == ConsiderDestroyWorkspace(old(root.State()), workspace)
  {
    ghost var t := root.State();
    if workspace.dead || |workspace.columns| > 0 || |workspace.floating| > 0 || workspace == root.activeWorkspace {
      return;
    }
    workspace.dead := true;
    root.workspaces := root.workspaces - {workspace};
    NoWindowChanged(root, t.windows);
    NoColumnChanged(root, t.columns);
    OneWorkspaceChanged(root, t.workspaces, workspace);
  }

  /** The loop of column_consider_destroy that picks the column to take over. */
  method PickNextColumn(root: Root, columns: seq<Column>, output: Option<nat>, index: nat) returns (next: Column?)
    requires forall c :: c in columns ==> c in root.allColumns
    ensures next == NextColumn(root.State(), columns, output, index)
  {
    ghost var t := root.State();
    next := null;
    for i := 0 to |columns|
      invariant NextColumnFrom(t, columns, output, index, i, next) == NextColumn(t, columns, output, index)
    {
      var candidate := columns[i];
      assert t.columns[candidate].output == candidate.output;
      if candidate.output != output {
        continue;
      }
      if next != null && i >= index {
        break;
      }
      next := candidate;
    }
  }

  method UnlinkFromWorkspace(root: Root, column: Column, workspace: Workspace)
    requires Inv(root.State()) && CanUnlink(root.State(), column) && column.workspace == workspace
    modifies workspace
    ensures ColumnsOk(old(root.State()), workspace) && root.State() == UnlinkColumn(old(root.State()), column)
  {
    hide Inv, Pointed;
    InvPointed(root.State());
    ghost var t := root.State();
    FloatingAre(t, workspace);
    var index := IndexOf(workspace.columns, column);
    var rest := workspace.columns[..index] + workspace.columns[index + 1..];
    assert rest == Remove(t.workspaces[workspace].columns, column);
    if workspace.activeColumn == column {
      workspace.activeColumn := PickNextColumn(root, rest, column.output, index);
    }
    workspace.columns := rest;
    NoWindowChanged(root, t.windows);
    NoColumnChanged(root, t.columns);
    OneWorkspaceChanged(root, t.workspaces, workspace);
  }

  method ColumnConsiderDestroy(root: Root, column: Column)
    requires Inv(root.State()) && CanConsider(root.State(), column)
    modifies root, column.workspace
    ensures root.allWindows == old(root.allWindows) && root.allColumns == old(root.allColumns)
    ensures root.allWorkspaces == old(root.allWorkspaces)
    ensures root.State() == Discard(old(root.State()), column)
  {
    hide Inv;
    ghost var t := root.State();
    if |column.children| > 0 {
      ConsiderDestroyColumnKeeps(t, column);
      return;
    }
    var workspace := column.workspace;
    UnlinkFromWorkspace(root, column, workspace);
    WorkspaceConsiderDestroy(root, workspace);
  }

  method WorkspaceGetActiveWindow(root: Root, workspace: Workspace) returns (window: Window?)
    requires Pointed(root.State()) && workspace in root.allWorkspaces
    ensures ColumnsOk(root.State(), workspace) && window == ActiveWindow(root.State(), workspace)
  {
    FloatingAre(root.State(), workspace);
    hide Pointed;
    match workspace.focusMode
    case Tiling => window := if workspace.activeColumn == null then null else workspace.activeColumn.activeChild;
    case Floating =>
      window := if |workspace.floating| == 0 then null else workspace.floating[|workspace.floating| - 1];
  }

  /** The pointers that reconciling the window would give it are those it has. */
  ghost predicate Reconciled(t: Tree, s: Workspace, w: Window) {
    && w in t.windows && t.windows[w].workspace == s
    && (t.windows[w].column != null ==> t.windows[w].column in t.columns && t.windows[w] == Tiled(t, w, t.windows[w].column))
  }

  /** The window that lost the focus is reconciled, to no effect. */
  method ReconcilePrevious(root: Root, workspace: Workspace, prev: Window)
    requires Reconciled(root.State(), workspace, prev)
    modifies prev
    ensures root.State() == old(root.State())
  {
    ghost var u := root.State();
    if prev.column == null {
      WindowReconcileFloating(prev, workspace);
    } else {
      WindowReconcileTiling(prev, prev.column);
    }
    NoWindowChanged(root, u.windows);
    NoColumnChanged(root, u.columns);
    NoWorkspaceChanged(root, u.workspaces);
  }

  /** The active window of a workspace is in it. */
  lemma ActiveWindowIs(t: Tree, s: Workspace)
    requires Pointed(t) && s in t.workspaces
    ensures ColumnsOk(t, s)
    ensures var w := ActiveWindow(t, s); w != null ==> Reconciled(t, s, w)
  {
    assert ColumnsOk(t, s) && FloatingOk(t, s);
    ActiveChildIs(t, s);
    var c := t.workspaces[s].activeColumn;
    if c != null {
      assert ChildrenAgree(t, c);
    }
  }

  lemma StaysReconciled(t: Tree, u: Tree, s: Workspace, w: Window)
    requires Reconciled(t, s, w) && u.windows == t.windows && KeepsColumns(t, u)
    ensures Reconciled(u, s, w)
  {
  }

  /** No column moved to another workspace or output. */
  ghost predicate KeepsColumns(t: Tree, u: Tree) {
    forall c :: c in t.columns ==>
      c in u.columns && u.columns[c].workspace == t.columns[c].workspace && u.columns[c].output == t.columns[c].output
  }

  lemma FocusKeepsColumns(t: Tree, s: Workspace, w: Window?)
    requires FocusDefined(t, s, w)
    ensures KeepsColumns(t, SetActiveWindow(t, s, w))
  {
    hide ActiveWindow;
  }

  method FocusFloatingWindow(root: Root, workspace: Workspace, window: Window)
    requires workspace in root.allWorkspaces && window in root.allWindows && window in workspace.floating
    requires window.workspace == workspace && window.column == null
    modifies workspace, window
    ensures root.State() == FocusFloating(old(root.State()), workspace, window)
  {
    ghost var t := root.State();
    workspace.floating := Remove(workspace.floating, window) + [window];
    workspace.focusMode := Floating;
    WindowReconcileFloating(window, workspace);
    NoWindowChanged(root, t.windows);
    NoColumnChanged(root, t.columns);
    OneWorkspaceChanged(root, t.workspaces, workspace);
  }

  method FocusTilingWindow(root: Root, workspace: Workspace, window: Window, column: Column)
    requires Pointed(root.State()) && workspace in root.allWorkspaces && IsChild(root.State(), column, window)
    modifies root, workspace, column, column.children
    ensures root.allWindows == old(root.allWindows) && root.allColumns == old(root.allColumns)
    ensures root.allWorkspaces == old(root.allWorkspaces)
    ensures root.State() == FocusTiling(old(root.State()), workspace, column, window)
  {
    hide Pointed;
    ColumnSetActiveChild(root, column, window);
    PointFocusAt(root, workspace, column);
    if root.activeWorkspace == workspace {
      RootSetActiveOutput(root, column.output);
    }
  }

  method PointFocusAt(root: Root, workspace: Workspace, column: Column)
    requires workspace in root.allWorkspaces
    modifies workspace
    ensures root.State() == old(root.State()).(workspaces := old(root.State()).workspaces[workspace :=
              old(workspace.Value()).(activeColumn := column, focusMode := Tiling)])
  {
    ghost var t := root.State();
    workspace.activeColumn := column;
    workspace.focusMode := Tiling;
    NoWindowChanged(root, t.windows);
    NoColumnChanged(root, t.columns);
    OneWorkspaceChanged(root, t.workspaces, workspace);
  }

  /** A window of the workspace is where its pointers lead. */
  lemma FocusTarget(t: Tree, s: Workspace, w: Window?)
    requires Pointed(t) && CanFocus(t, s, w)
    ensures FocusDefined(t, s, w)
    ensures w != null ==>
              if t.windows[w].column == null then w in t.workspaces[s].floating
              else IsChild(t, t.windows[w].column, w) && ChildrenAgree(t, t.windows[w].column)
  {
    assert ColumnsOk(t, s);
    if w != null {
      assert WindowOk(t, w);
      if t.windows[w].column != null {
        assert ChildrenAgree(t, t.windows[w].column);
      }
    }
  }

  method MoveFocus(root: Root, workspace: Workspace, window: Window?)
    requires Pointed(root.State()) && CanFocus(root.State(), workspace, window)
    requires FocusDefined(root.State(), workspace, window) && window != ActiveWindow(root.State(), workspace)
    modifies root, workspace, root.allColumns, root.allWindows
    ensures root.allWindows == old(root.allWindows) && root.allColumns == old(root.allColumns)
    ensures root.allWorkspaces == old(root.allWorkspaces)
    ensures root.State() == SetActiveWindow(old(root.State()), workspace, window)
  {
    ghost var t := root.State();
    FocusTarget(t, workspace, window);
    hide Pointed;
    if window == null {
      workspace.activeColumn := null;
      workspace.focusMode := Tiling;
      NoWindowChanged(root, t.windows);
      NoColumnChanged(root, t.columns);
      OneWorkspaceChanged(root, t.workspaces, workspace);
    } else if window.column == null {
      FocusFloatingWindow(root, workspace, window);
    } else {
      FocusTilingWindow(root, workspace, window, window.column);
    }
  }

  method WorkspaceSetActiveWindow(root: Root, workspace: Workspace, window: Window?)
    requires Pointed(root.State()) && CanFocus(root.State(), workspace, window)
    modifies root, workspace, root.allColumns, root.allWindows
    ensures root.allWindows == old(root.allWindows) && root.allColumns == old(root.allColumns)
    ensures root.allWorkspaces == old(root.allWorkspaces)
    ensures FocusDefined(old(root.State()), workspace, window)
    ensures root.State() == SetActiveWindow(old(root.State()), workspace, window)
  {
    ghost var t := root.State();
    FocusTarget(t, workspace, window);
    var prevActive := WorkspaceGetActiveWindow(root, workspace);
    ActiveWindowIs(t, workspace);
    hide Pointed;
    if window == prevActive {
      return;
    }
    MoveFocus(root, workspace, window);
    if prevActive != null {
      hide SetActiveWindow, FocusDefined, CanFocus, Reconciled, ActiveWindow, ColumnsOk;
      FocusKeepsLists(t, workspace, window);
      FocusKeepsColumns(t, workspace, window);
      StaysReconciled(t, root.State(), workspace, prevActive);
      ReconcilePrevious(root, workspace, prevActive);
    }
  }

  /** In a tree in order, the steps of the focus are those that clients know. */
  lemma FocusIs(t: Tree, s: Workspace, w: Window?)
    requires Inv(t) && CanFocus(t, s, w)
    ensures Pointed(t) && FocusDefined(t, s, w) && Focus(t, s, w) == SetActiveWindow(t, s, w)
  {
    InvPointed(t);
    FocusPointers(t, s, w);
  }

  lemma FocusWindowIs(t: Tree, w: Window)
    requires Inv(t) && IsPlaced(t, w)
    ensures Pointed(t) && CanShow(t, w) && FocusWindow(t, w) == SetFocusedWindow(t, w)
  {
    InvPointed(t);
    ShowKeeps(t, w);
  }

  lemma SwitchIs(t: Tree, s: Workspace)
    requires Inv(t) && s in t.listed
    ensures SwitchDefined(t, s) && Switch(t, s) == SetActiveWorkspace(t, s)
  {
    CanSwitch(t, s);
  }

  // ---------------------------------------------------------------------
  // src/tree/root.c
  // ---------------------------------------------------------------------

  method RootPointAt(root: Root, workspace: Workspace)
    modifies root`activeWorkspace
    ensures root.State() == old(root.State()).(activeWorkspace := workspace)
  {
    root.activeWorkspace := workspace;
  }

  method RootSetActiveOutput(root: Root, output: Option<nat>)
    modifies root`activeOutput
    ensures root.State() == old(root.State()).(activeOutput := output)
  {
    root.activeOutput := output;
  }

  method RootSetActiveWorkspace(root: Root, workspace: Workspace)
    requires SwitchDefined(root.State(), workspace)
    modifies root, root.allWorkspaces
    ensures root.allWindows == old(root.allWindows) && root.allColumns == old(root.allColumns)
    ensures root.allWorkspaces == old(root.allWorkspaces)
    ensures root.State() == SetActiveWorkspace(old(root.State()), workspace)
  {
    var oldWorkspace := root.activeWorkspace;
    if workspace == oldWorkspace {
      return;
    }
    RootPointAt(root, workspace);
    if oldWorkspace != null {
      WorkspaceConsiderDestroy(root, oldWorkspace);
    }
    if workspace.activeColumn != null && workspace.activeColumn.output.Some? {
      RootSetActiveOutput(root, workspace.activeColumn.output);
    }
  }

  lemma SwitchPoints(t: Tree, s: Workspace)
    requires Pointed(t) && SwitchDefined(t, s)
    ensures Pointed(SetActiveWorkspace(t, s))
  {
    hide Pointed;
    PointsStay(t, SetActiveWorkspace(t, s));
  }

  lemma PointsStay(t: Tree, u: Tree)
    requires Pointed(t) && u.windows == t.windows && u.columns == t.columns && u.workspaces.Keys == t.workspaces.Keys
    requires forall s :: s in t.workspaces ==> u.workspaces[s] in {t.workspaces[s], t.workspaces[s].(dead := true)}
    ensures Pointed(u)
  {
    hide FloatingLinked, WindowsLinked, ColumnsLinked, ChildrenAgree;
    ColumnsStayLinked(t, u);
    FloatingStaysLinked(t, u);
    WindowsStayLinked(t, u);
    forall c | c in u.columns
      ensures ChildrenAgree(u, c)
    {
      ChildrenStayAgreed(t, u, c);
    }
  }

  lemma ChildrenStayAgreed(t: Tree, u: Tree, c: Column)
    requires c in t.columns && ChildrenAgree(t, c) && u.windows == t.windows && u.columns == t.columns
    ensures ChildrenAgree(u, c)
  {
  }

  method RootSetFocusedWindow(root: Root, window: Window)
    requires Pointed(root.State()) && CanShow(root.State(), window)
    modifies root, root.allWorkspaces, root.allColumns, root.allWindows
    ensures root.allWindows == old(root.allWindows) && root.allColumns == old(root.allColumns)
    ensures root.allWorkspaces == old(root.allWorkspaces)
    ensures root.State() == SetFocusedWindow(old(root.State()), window)
  {
    ghost var t := root.State();
    var workspace := window.workspace;
    SwitchPoints(t, workspace);
    SwitchKeepsLists(t, workspace);
    FocusStaysDefined(t, SetActiveWorkspace(t, workspace), workspace, window);
    hide Pointed, SetActiveWorkspace, SetActiveWindow, SameLists;
    RootSetActiveWorkspace(root, workspace);
    WorkspaceSetActiveWindow(root, workspace, window);
  }
}
