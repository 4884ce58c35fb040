/**
 * The tree's operations once more, as clients see them: each asks for a tree in
 * order and what its assertions demand, keeps the order, and says what it leaves
 * alone.
 */
module TreeSteps {
  import opened Seqs
  import opened Tree
  import opened TreeInvariant

  // ---------------------------------------------------------------------
  // What stays as it is
  // ---------------------------------------------------------------------

  /** No object is forgotten, and no column forgets its workspace. */
  ghost predicate Remembers(t: Tree, u: Tree) {
    && (forall c :: c in t.columns && t.columns[c].workspace != null ==>
          c in u.columns && u.columns[c].workspace == t.columns[c].workspace && u.columns[c].output == t.columns[c].output)
    && (forall s :: s in t.workspaces ==> s in u.workspaces)
  }

  /** The active output still follows the focus, if it did. */
  ghost predicate OutputStays(t: Tree, u: Tree) { OutputFollowsFocus(t) ==> OutputFollowsFocus(u) }

  /** No window but w, if any, moved. */
  ghost predicate OnlyMoves(t: Tree, u: Tree, w: Window?) {
    && Remembers(t, u) && OutputStays(t, u)
    && forall v :: v in t.windows && v != w ==> v in u.windows && u.windows[v] == t.windows[v]
  }

  /** Every column that hung in a workspace still hangs there. */
  ghost predicate ColumnsPersist(t: Tree, u: Tree) {
    Remembers(t, u) && forall s, c :: s in t.workspaces && c in t.workspaces[s].columns ==> c in u.workspaces[s].columns
  }

  lemma StaysAttached(t: Tree, u: Tree, c: Column)
    requires ColumnsPersist(t, u) && Attached(t, c)
    ensures Attached(u, c)
  {
  }

  // ---------------------------------------------------------------------
  // The pieces the commands are made of
  // ---------------------------------------------------------------------

  /** The window is in some list. */
  ghost predicate IsPlaced(t: Tree, w: Window) { w in t.windows && t.windows[w].workspace != null }

  predicate IsTiled(t: Tree, w: Window) { w in t.windows && t.windows[w].column != null }

  lemma Pointers(t: Tree, w: Window)
    requires Inv(t) && IsPlaced(t, w)
    ensures var s, c := t.windows[w].workspace, t.windows[w].column;
            && s in t.workspaces && !t.workspaces[s].dead && s in t.listed && !t.windows[w].dead
            && t.windows[w].output.Some?
            && ColumnsOk(t, s)
            && if c == null then Floats(t, s, w)
               else IsChild(t, c, w) && Attached(t, c) && c in t.workspaces[s].columns && t.columns[c].workspace == s
                    && t.windows[w].output == t.columns[c].output
  {
    assert WindowOk(t, w);
    var s, c := t.windows[w].workspace, t.windows[w].column;
    if c != null {
      assert ChildrenOk(t, c);
    } else {
      assert FloatingOk(t, s);
    }
    assert ColumnsOk(t, s);
  }

  /** What everything but making and unlinking columns and workspaces leaves alone. */
  ghost predicate Calm(t: Tree, u: Tree, w: Window) {
    && OnlyMoves(t, u, w) && ColumnsPersist(t, u)
    && u.windows.Keys == t.windows.Keys && u.columns.Keys == t.columns.Keys && u.workspaces.Keys == t.workspaces.Keys
    && u.listed == t.listed && u.activeWorkspace == t.activeWorkspace
  }

  lemma CalmMeans(t: Tree, u: Tree, w: Window)
    requires Calm(t, u, w)
    ensures OnlyMoves(t, u, w) && ColumnsPersist(t, u) && u.windows.Keys == t.windows.Keys
  {
  }

  lemma MovesAfterMoves(t: Tree, u: Tree, v: Tree, w: Window?)
    requires OnlyMoves(t, u, w) && OnlyMoves(u, v, w)
    ensures OnlyMoves(t, v, w)
  {
    hide OutputFollowsFocus;
  }

  lemma PersistAfterPersist(t: Tree, u: Tree, v: Tree)
    requires ColumnsPersist(t, u) && ColumnsPersist(u, v)
    ensures ColumnsPersist(t, v)
  {
  }

  /** A step that moves no window moves only w, whichever that is. */
  lemma NoneMoves(t: Tree, u: Tree, w: Window?)
    requires u.windows == t.windows && Remembers(t, u) && OutputStays(t, u)
    ensures OnlyMoves(t, u, w)
  {
  }

  lemma CalmAfterCalm(t: Tree, u: Tree, v: Tree, w: Window)
    requires Calm(t, u, w) && Calm(u, v, w)
    ensures Calm(t, v, w)
  {
  }

  lemma RemoveChildCalm(t: Tree, c: Column, w: Window)
    requires IsChild(t, c, w)
    ensures Calm(t, RemoveChild(t, c, w), w)
  {
  }

  lemma RemoveFloatingCalm(t: Tree, s: Workspace, w: Window)
    requires Floats(t, s, w)
    ensures Calm(t, RemoveFloating(t, s, w), w)
  {
  }

  lemma DetachCalm(t: Tree, w: Window)
    requires Inv(t) && w in t.windows
    ensures WindowOk(t, w)
    ensures var u := Detach(t, w);
            && Calm(t, u, w)
            && u.windows[w] == t.windows[w].(workspace := null, column := null)
            && (forall c :: c in t.columns && c != t.windows[w].column ==> u.columns[c] == t.columns[c])
            && (t.windows[w].column in t.columns ==>
                  && u.columns[t.windows[w].column].children == Remove(t.columns[t.windows[w].column].children, w)
                  && u.workspaces == t.workspaces)
  {
    assert WindowOk(t, w);
    if t.windows[w].column != null {
      assert ChildrenOk(t, t.windows[w].column);
      RemoveChildCalm(t, t.windows[w].column, w);
    } else if t.windows[w].workspace != null {
      RemoveFloatingCalm(t, t.windows[w].workspace, w);
    }
  }

  /** window_detach, on a tree in order. */
  function TakeOut(t: Tree, w: Window): (u: Tree)
    requires Inv(t) && w in t.windows
    ensures Inv(u) && Detached(u, w) && Calm(t, u, w)
    ensures u.windows[w] == t.windows[w].(workspace := null, column := null)
    ensures forall c :: c in t.columns && c != t.windows[w].column ==> u.columns[c] == t.columns[c]
    ensures t.windows[w].column in t.columns ==>
              && u.columns[t.windows[w].column].children == Remove(t.columns[t.windows[w].column].children, w)
              && u.workspaces == t.workspaces
  {
    DetachKeeps(t, w);
    DetachCalm(t, w);
    Detach(t, w)
  }

  lemma InsertChildCalm(t: Tree, c: Column, w: Window, i: nat)
    requires w in t.windows && c in t.columns && i <= |t.columns[c].children|
    ensures Calm(t, InsertChild(t, c, w, i), w)
  {
  }

  /** column_insert_child. */
  function PutInColumn(t: Tree, c: Column, w: Window, i: nat): (u: Tree)
    requires Inv(t) && CanInsertChild(t, c, w, i)
    ensures Inv(u) && Calm(t, u, w)
    ensures u.windows[w] == Tiled(t, w, c) && u.columns[c].children == Insert(t.columns[c].children, i, w)
    ensures forall d :: d in t.columns && d != c ==> u.columns[d] == t.columns[d]
    ensures u.workspaces == t.workspaces && u.activeOutput == t.activeOutput
  {
    InsertChildKeeps(t, c, w, i);
    InsertChildCalm(t, c, w, i);
    InsertChild(t, c, w, i)
  }

  /** Where column_add_sibling behind the active child, or else column_add_child, puts a window. */
  function BehindActive(col: ColumnState): (i: nat)
    requires col.activeChild != null ==> col.activeChild in col.children
    ensures i <= |col.children|
  {
    if col.activeChild == null then |col.children|
    else var active: Window := col.activeChild; IndexOf(col.children, active) + 1
  }

  lemma AddFloatingCalm(t: Tree, s: Workspace, w: Window)
    requires w in t.windows && s in t.workspaces
    ensures Calm(t, AddFloating(t, s, w), w)
  {
  }

  /** workspace_add_floating. */
  function PutFloating(t: Tree, s: Workspace, w: Window): (u: Tree)
    requires Inv(t) && CanFloat(t, s, w)
    ensures Inv(u) && Calm(t, u, w) && u.columns == t.columns && u.activeOutput == t.activeOutput
    ensures w in u.windows && u.windows[w].workspace == s && u.windows[w].column == null
    ensures u.workspaces[s] == t.workspaces[s].(floating := t.workspaces[s].floating + [w])
    ensures forall r :: r in t.workspaces && r != s ==> u.workspaces[r] == t.workspaces[r]
  {
    AddFloatingKeeps(t, s, w);
    AddFloatingCalm(t, s, w);
    AddFloating(t, s, w)
  }

  lemma NewColumnPersists(t: Tree, s: Workspace, output: Option<nat>, i: nat, c: Column)
    requires c !in t.columns && s in t.workspaces && i <= |t.workspaces[s].columns|
    ensures ColumnsPersist(t, InsertColumn(CreateColumn(t, c), s, c, output, i))
  {
    forall d
      ensures d in Insert(t.workspaces[s].columns, i, c) <==> d == c || d in t.workspaces[s].columns
    {
      InsertMembers(t.workspaces[s].columns, i, c, d);
    }
  }

  lemma NewColumnKeepsOutput(t: Tree, s: Workspace, output: Option<nat>, i: nat, c: Column)
    requires Inv(t) && c !in t.columns && s in t.workspaces && i <= |t.workspaces[s].columns|
    ensures OutputStays(t, InsertColumn(CreateColumn(t, c), s, c, output, i))
  {
    if t.activeWorkspace != null && t.activeWorkspace in t.workspaces {
      assert ColumnsOk(t, t.activeWorkspace);
    }
  }

  lemma CanInsertNew(t: Tree, s: Workspace, c: Column, output: Option<nat>, i: nat)
    requires Inv(t) && c !in t.columns && s in t.listed && output.Some? && i <= |t.workspaces[s].columns|
    ensures s in t.workspaces && CanInsertColumn(CreateColumn(t, c), s, c, output, i)
  {
  }

  lemma NewColumnIs(t: Tree, s: Workspace, output: Option<nat>, i: nat, c: Column)
    requires Inv(t) && c !in t.columns && s in t.listed && s in t.workspaces
    requires output.Some? && i <= |t.workspaces[s].columns|
    ensures var u := InsertColumn(CreateColumn(t, c), s, c, output, i);
            Inv(u) && Attached(u, c) && ColumnsPersist(t, u) && OutputStays(t, u)
  {
    CreateColumnKeeps(t, c);
    CanInsertNew(t, s, c, output, i);
    hide Inv, ColumnsPersist, Attached, CanInsertColumn, OutputStays;
    InsertColumnKeeps(CreateColumn(t, c), s, c, output, i);
    NewColumnPersists(t, s, output, i, c);
    NewColumnKeepsOutput(t, s, output, i, c);
  }

  /** column_create, and workspace_insert_column_first, _last, _before or _after. */
  function NewColumn(t: Tree, s: Workspace, output: Option<nat>, i: nat, c: Column): (u: Tree)
    requires Inv(t) && c !in t.columns && s in t.listed && output.Some? && i <= |t.workspaces[s].columns|
    ensures Inv(u) && Attached(u, c) && ColumnsPersist(t, u) && u.windows == t.windows
    ensures u.columns == t.columns[c := ColumnState(s, output, [], null)]
    ensures u.listed == t.listed && u.activeWorkspace == t.activeWorkspace && u.activeOutput == t.activeOutput
    ensures OutputStays(t, u)
    ensures u.workspaces == t.workspaces[s := t.workspaces[s].(columns := Insert(t.workspaces[s].columns, i, c))]
  {
    NewColumnIs(t, s, output, i, c);
    hide Inv, ColumnsPersist, Attached, OutputStays;
    InsertColumn(CreateColumn(t, c), s, c, output, i)
  }

  /** What considering a column for destruction leaves alone. */
  ghost predicate OnlyUnlinks(t: Tree, u: Tree) {
    && u.windows == t.windows && u.columns == t.columns && u.activeWorkspace == t.activeWorkspace
    && Remembers(t, u) && OutputStays(t, u)
    && (forall s :: s in t.workspaces ==>
          s in u.workspaces && u.workspaces[s].floating == t.workspaces[s].floating)
    && (forall s :: s in t.listed && s in t.workspaces && (t.workspaces[s].floating != [] || s == t.activeWorkspace) ==>
          s in u.listed)
  }

  lemma DiscardKeepsOutput(t: Tree, c: Column)
    requires Inv(t) && CanConsider(t, c) && OutputFollowsFocus(t)
    ensures t.columns[c].children == [] ==> ColumnsOk(t, t.columns[c].workspace)
    ensures OutputFollowsFocus(ConsiderDestroyColumn(t, c))
  {
    if t.columns[c].children == [] {
      UnlinkColumnKeepsOutput(t, c);
    }
  }

  lemma DiscardStays(t: Tree, c: Column)
    requires c in t.columns
    requires t.columns[c].children == [] ==> Attached(t, c) && ColumnsOk(t, t.columns[c].workspace)
    ensures var u := ConsiderDestroyColumn(t, c);
            && u.windows == t.windows && u.columns == t.columns && u.activeWorkspace == t.activeWorkspace
            && (forall s :: s in t.workspaces ==>
                  s in u.workspaces && u.workspaces[s].floating == t.workspaces[s].floating)
            && (forall s :: s in t.listed && s in t.workspaces && (t.workspaces[s].floating != [] || s == t.activeWorkspace) ==>
                  s in u.listed)
  {
  }

  lemma DiscardUnlinks(t: Tree, c: Column)
    requires Inv(t) && CanConsider(t, c)
    ensures t.columns[c].children == [] ==> ColumnsOk(t, t.columns[c].workspace)
    ensures OnlyUnlinks(t, ConsiderDestroyColumn(t, c))
  {
    assert t.columns[c].children == [] ==> ColumnsOk(t, t.columns[c].workspace);
    DiscardStays(t, c);
    hide OutputFollowsFocus, Inv, ConsiderDestroyColumn, ColumnsOk;
    if OutputFollowsFocus(t) {
      DiscardKeepsOutput(t, c);
    }
  }

  /** column_consider_destroy. */
  function Discard(t: Tree, c: Column): (u: Tree)
    requires Inv(t) && CanConsider(t, c)
    ensures Inv(u) && OnlyUnlinks(t, u)
  {
    ConsiderDestroyColumnKeeps(t, c);
    DiscardUnlinks(t, c);
    ConsiderDestroyColumn(t, c)
  }

  /** Every column has the same children, and every workspace the same columns. */
  ghost predicate SameLists(t: Tree, u: Tree) {
    && Remembers(t, u)
    && (forall c :: c in t.columns ==> c in u.columns && u.columns[c].children == t.columns[c].children)
    && (forall s :: s in t.workspaces ==> s in u.workspaces && u.workspaces[s].columns == t.workspaces[s].columns)
  }

  lemma SameAfterSame(t: Tree, u: Tree, v: Tree)
    requires SameLists(t, u) && SameLists(u, v)
    ensures SameLists(t, v)
  {
  }

  lemma SameListsPersist(t: Tree, u: Tree)
    requires SameLists(t, u)
    ensures ColumnsPersist(t, u) && Remembers(t, u)
  {
  }

  /** Nothing moved but the focus. */
  ghost predicate OnlyFocusMoves(t: Tree, u: Tree) {
    && u.windows == t.windows && SameLists(t, u) && OutputStays(t, u) && u.workspaces.Keys == t.workspaces.Keys
    && u.listed == t.listed && u.activeWorkspace == t.activeWorkspace
  }

  ghost predicate FocusDefined(t: Tree, s: Workspace, w: Window?) {
    && s in t.workspaces
    && (t.workspaces[s].activeColumn != null ==> t.workspaces[s].activeColumn in t.columns)
    && (w != null ==> w in t.windows && (t.windows[w].column != null ==> t.windows[w].column in t.columns))
  }

  lemma FocusKeepsLists(t: Tree, s: Workspace, w: Window?)
    requires FocusDefined(t, s, w)
    ensures var u := SetActiveWindow(t, s, w);
            && u.windows == t.windows && SameLists(t, u) && u.workspaces.Keys == t.workspaces.Keys
            && u.listed == t.listed && u.activeWorkspace == t.activeWorkspace
  {
    hide ActiveWindow;
  }

  lemma FocusKeepsOutput(t: Tree, s: Workspace, w: Window?)
    requires FocusDefined(t, s, w)
    ensures OutputStays(t, SetActiveWindow(t, s, w))
  {
    hide ActiveWindow;
  }

  lemma FocusPersists(t: Tree, s: Workspace, w: Window?)
    requires FocusDefined(t, s, w)
    ensures OnlyFocusMoves(t, SetActiveWindow(t, s, w))
  {
    hide SetActiveWindow, OutputStays, SameLists;
    FocusKeepsLists(t, s, w);
    FocusKeepsOutput(t, s, w);
  }

  /** workspace_set_active_window. */
  function Focus(t: Tree, s: Workspace, w: Window?): (u: Tree)
    requires Inv(t) && CanFocus(t, s, w)
    ensures Inv(u) && OnlyFocusMoves(t, u)
  {
    SetActiveWindowKeeps(t, s, w);
    FocusPointers(t, s, w);
    FocusPersists(t, s, w);
    SetActiveWindow(t, s, w)
  }

  ghost predicate SwitchDefined(t: Tree, s: Workspace) {
    && s in t.workspaces
    && (t.workspaces[s].activeColumn != null ==> t.workspaces[s].activeColumn in t.columns)
    && (t.activeWorkspace != null ==> t.activeWorkspace in t.workspaces)
  }

  lemma SwitchKeepsLists(t: Tree, s: Workspace)
    requires SwitchDefined(t, s)
    ensures var u := SetActiveWorkspace(t, s);
            && u.activeWorkspace == s && u.windows == t.windows && u.columns == t.columns
            && SameLists(t, u) && u.workspaces.Keys == t.workspaces.Keys
  {
  }

  lemma SwitchKeepsOutput(t: Tree, s: Workspace)
    requires SwitchDefined(t, s)
    requires var c := t.workspaces[s].activeColumn; c != null ==> t.columns[c].output.Some?
    ensures OutputStays(t, SetActiveWorkspace(t, s))
  {
  }

  lemma ActiveIsListed(t: Tree)
    requires Inv(t) && t.activeWorkspace != null
    ensures t.activeWorkspace in t.listed && t.activeWorkspace in t.workspaces
    ensures !t.workspaces[t.activeWorkspace].dead && ColumnsOk(t, t.activeWorkspace)
  {
  }

  lemma CanSwitch(t: Tree, s: Workspace)
    requires Inv(t) && s in t.listed
    ensures SwitchDefined(t, s) && ColumnsOk(t, s)
  {
    assert ColumnsOk(t, s);
  }

  /** root_set_active_workspace. */
  function Switch(t: Tree, s: Workspace): (u: Tree)
    requires Inv(t) && s in t.listed
    ensures Inv(u) && u.activeWorkspace == s && s in u.listed && u.windows == t.windows && u.columns == t.columns
    ensures u.workspaces.Keys == t.workspaces.Keys && SameLists(t, u) && OutputStays(t, u)
  {
    CanSwitch(t, s);
    SetActiveWorkspaceKeeps(t, s);
    SwitchKeepsOutput(t, s);
    hide Inv, ColumnsOk, SameLists, OutputStays;
    SwitchKeepsLists(t, s);
    var u := SetActiveWorkspace(t, s);
    ActiveIsListed(u);
    u
  }

  /** What root_set_focused_window asserts, in or out of order. */
  ghost predicate CanShow(t: Tree, w: Window) {
    && w in t.windows && t.windows[w].workspace != null
    && SwitchDefined(t, t.windows[w].workspace) && FocusDefined(t, t.windows[w].workspace, w)
  }

  lemma PlacedCanShow(t: Tree, w: Window)
    requires Inv(t) && IsPlaced(t, w)
    ensures CanShow(t, w)
  {
    Pointers(t, w);
    if t.activeWorkspace != null {
      ActiveIsListed(t);
    }
  }

  lemma ShowFocuses(t: Tree, w: Window)
    requires CanShow(t, w)
    ensures var u := SetFocusedWindow(t, w);
            && u.windows == t.windows && u.activeWorkspace == t.windows[w].workspace && SameLists(t, u)
            && u.workspaces.Keys == t.workspaces.Keys
  {
    var s := t.windows[w].workspace;
    hide SameLists, SetActiveWindow, SetActiveWorkspace;
    SwitchKeepsLists(t, s);
    FocusStaysDefined(t, SetActiveWorkspace(t, s), s, w);
    FocusKeepsLists(SetActiveWorkspace(t, s), s, w);
    SameAfterSame(t, SetActiveWorkspace(t, s), SetFocusedWindow(t, w));
  }

  lemma FocusStaysDefined(t: Tree, u: Tree, s: Workspace, w: Window)
    requires SwitchDefined(t, s) && FocusDefined(t, s, w) && u == SetActiveWorkspace(t, s)
    ensures FocusDefined(u, s, w)
  {
  }

  /** The active column of the workspace that is to show is on an output. */
  ghost predicate ActiveOnOutput(t: Tree, s: Workspace) {
    && s in t.workspaces
    && var c := t.workspaces[s].activeColumn; c != null ==> c in t.columns && t.columns[c].output.Some?
  }

  lemma ShowKeepsOutput(t: Tree, w: Window)
    requires CanShow(t, w) && ActiveOnOutput(t, t.windows[w].workspace)
    ensures OutputStays(t, SetFocusedWindow(t, w))
  {
    var s := t.windows[w].workspace;
    SwitchKeepsOutput(t, s);
    hide OutputFollowsFocus, SetActiveWindow, SetActiveWorkspace;
    FocusStaysDefined(t, SetActiveWorkspace(t, s), s, w);
    FocusKeepsOutput(SetActiveWorkspace(t, s), s, w);
  }

  lemma ShowKeeps(t: Tree, w: Window)
    requires Inv(t) && IsPlaced(t, w)
    ensures CanShow(t, w) && ActiveOnOutput(t, t.windows[w].workspace) && Inv(SetFocusedWindow(t, w))
  {
    PlacedCanShow(t, w);
    Pointers(t, w);
    var s := t.windows[w].workspace;
    hide Inv;
    SetActiveWindowKeeps(Switch(t, s), s, w);
  }

  /** root_set_focused_window. */
  function FocusWindow(t: Tree, w: Window): (u: Tree)
    requires Inv(t) && IsPlaced(t, w)
    ensures Inv(u) && u.windows == t.windows && u.activeWorkspace == t.windows[w].workspace
    ensures SameLists(t, u) && OutputStays(t, u)
  {
    hide Inv, SameLists, OutputFollowsFocus;
    ShowKeeps(t, w);
    ShowFocuses(t, w);
    ShowKeepsOutput(t, w);
    SetFocusedWindow(t, w)
  }
}
