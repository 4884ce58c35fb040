/**
 * What every operation on the window tree keeps: lists and back-pointers agree
 * in both directions, so every attached window is in exactly one list, exactly
 * once, and focus never points outside the lists.
 */
module TreeInvariant {
  import opened Seqs
  import opened Tree

  // ---------------------------------------------------------------------
  // The invariant, one clause at a time
  // ---------------------------------------------------------------------

  /** A column's children, and their pointers back to it. */
  ghost predicate ChildrenAgree(t: Tree, c: Column)
    requires c in t.columns
  {
    var col := t.columns[c];
    && NoDuplicates(col.children)
    && (forall w :: w in col.children ==>
          w in t.windows && t.windows[w] == WindowState(col.workspace, c, col.output, false))
    && (if col.children == [] then col.activeChild == null else col.activeChild in col.children)
  }

  /** A column with children also hangs in its workspace. */
  ghost predicate ChildrenOk(t: Tree, c: Column)
    requires c in t.columns
  {
    ChildrenAgree(t, c) && (t.columns[c].children != [] ==> Attached(t, c))
  }

  ghost predicate ChildrenLinked(t: Tree) { forall c :: c in t.columns ==> ChildrenOk(t, c) }

  /** A workspace's columns, and their pointers back to it. */
  ghost predicate ColumnsOk(t: Tree, s: Workspace)
    requires s in t.workspaces
  {
    var ws := t.workspaces[s];
    && NoDuplicates(ws.columns)
    && (forall c :: c in ws.columns ==> c in t.columns && t.columns[c].workspace == s && t.columns[c].output.Some?)
    && (ws.activeColumn != null ==> ws.activeColumn in ws.columns)
  }

  ghost predicate ColumnsLinked(t: Tree) { forall s :: s in t.workspaces ==> ColumnsOk(t, s) }

  /** A workspace's floating windows, and their pointers back to it. */
  ghost predicate FloatingOk(t: Tree, s: Workspace)
    requires s in t.workspaces
  {
    var ws := t.workspaces[s];
    && NoDuplicates(ws.floating)
    && (forall w :: w in ws.floating ==>
          && w in t.windows && t.windows[w].workspace == s && t.windows[w].column == null
          && t.windows[w].output.Some? && !t.windows[w].dead)
    && (ws.focusMode.Floating? ==> ws.floating != [])
  }

  ghost predicate FloatingLinked(t: Tree) { forall s :: s in t.workspaces ==> FloatingOk(t, s) }

  /** A window's pointers, and the list they lead to. */
  ghost predicate WindowOk(t: Tree, w: Window)
    requires w in t.windows
  {
    var win := t.windows[w];
    if win.column != null then win.column in t.columns && w in t.columns[win.column].children
    else win.workspace != null ==> win.workspace in t.workspaces && w in t.workspaces[win.workspace].floating
  }

  ghost predicate WindowsLinked(t: Tree) { forall w :: w in t.windows ==> WindowOk(t, w) }

  /** The workspace list holds the live workspaces, the dead ones are empty, and the active one is alive. */
  ghost predicate WorkspacesListed(t: Tree) {
    && (forall s :: s in t.listed ==> s in t.workspaces && !t.workspaces[s].dead)
    && (forall s :: s in t.workspaces && !t.workspaces[s].dead ==> s in t.listed)
    && (forall s :: s in t.workspaces && t.workspaces[s].dead ==>
          t.workspaces[s].columns == [] && t.workspaces[s].floating == [])
    && (if t.activeWorkspace == null then t.listed == {} else t.activeWorkspace in t.listed)
  }

  ghost predicate Inv(t: Tree) {
    ChildrenLinked(t) && ColumnsLinked(t) && FloatingLinked(t) && WindowsLinked(t) && WorkspacesListed(t)
  }

  /** The part of the invariant that a window in a column which hangs nowhere would not break. */
  ghost predicate Pointed(t: Tree) {
    (forall c :: c in t.columns ==> ChildrenAgree(t, c)) && ColumnsLinked(t) && FloatingLinked(t) && WindowsLinked(t)
  }

  lemma InvPointed(t: Tree)
    requires Inv(t)
    ensures Pointed(t)
  {
    forall c | c in t.columns
      ensures ChildrenAgree(t, c)
    {
      assert ChildrenOk(t, c);
    }
  }

  /**
   * The active output is that of the active column of the active workspace.
   * This is no part of the invariant: the pointer may enter another output.
   */
  ghost predicate OutputFollowsFocus(t: Tree) {
    t.activeWorkspace != null && t.activeWorkspace in t.workspaces ==>
      var c := t.workspaces[t.activeWorkspace].activeColumn;
      c != null && c in t.columns ==> t.activeOutput == t.columns[c].output
  }

  /** What root_validate asserts of the active output: the same, as long as the focus is on a tiled window. */
  ghost predicate OutputValid(t: Tree) {
    t.activeWorkspace != null && t.activeWorkspace in t.workspaces
    && t.workspaces[t.activeWorkspace].focusMode.Tiling? ==>
      OutputFollowsFocus(t)
  }

  // ---------------------------------------------------------------------
  // A column gets or loses a child
  // ---------------------------------------------------------------------

  ghost predicate CanInsertChild(t: Tree, c: Column, w: Window, i: nat) {
    Detached(t, w) && !t.windows[w].dead && Attached(t, c) && i <= |t.columns[c].children|
  }

  lemma InsertChildLinksChildren(t: Tree, c: Column, w: Window, i: nat)
    requires Inv(t) && CanInsertChild(t, c, w, i)
    ensures ChildrenLinked(InsertChild(t, c, w, i))
  {
    var u := InsertChild(t, c, w, i);
    var col := t.columns[c];
    assert ChildrenOk(t, c);
    InsertKeepsNoDuplicates(col.children, i, w);
    forall d | d in u.columns
      ensures ChildrenOk(u, d)
    {
      assert ChildrenOk(t, d);
      if d == c {
        forall v | v in u.columns[c].children
          ensures v in u.windows && u.windows[v] == WindowState(col.workspace, c, col.output, false)
        {
          InsertMembers(col.children, i, w, v);
        }
        if col.activeChild != null {
          InsertMembers(col.children, i, w, col.activeChild);
        }
        InsertMembers(col.children, i, w, w);
      }
    }
  }

  lemma InsertChildLinksRest(t: Tree, c: Column, w: Window, i: nat)
    requires Inv(t) && CanInsertChild(t, c, w, i)
    ensures var u := InsertChild(t, c, w, i);
            ColumnsLinked(u) && FloatingLinked(u) && WorkspacesListed(u)
  {
    var u := InsertChild(t, c, w, i);
    forall s | s in u.workspaces
      ensures ColumnsOk(u, s) && FloatingOk(u, s)
    {
      assert ColumnsOk(t, s) && FloatingOk(t, s);
    }
  }

  lemma InsertChildLinksWindows(t: Tree, c: Column, w: Window, i: nat)
    requires Inv(t) && CanInsertChild(t, c, w, i)
    ensures WindowsLinked(InsertChild(t, c, w, i))
  {
    var u := InsertChild(t, c, w, i);
    forall v | v in u.windows
      ensures WindowOk(u, v)
    {
      InsertMembers(t.columns[c].children, i, w, v);
      assert WindowOk(t, v);
    }
  }

  lemma InsertChildKeeps(t: Tree, c: Column, w: Window, i: nat)
    requires Inv(t) && CanInsertChild(t, c, w, i)
    ensures Inv(InsertChild(t, c, w, i))
  {
    hide ChildrenLinked, ColumnsLinked, FloatingLinked, WindowsLinked, WorkspacesListed;
    InsertChildLinksChildren(t, c, w, i);
    InsertChildLinksRest(t, c, w, i);
    InsertChildLinksWindows(t, c, w, i);
  }

  ghost predicate IsChild(t: Tree, c: Column, w: Window) {
    c in t.columns && w in t.windows && w in t.columns[c].children
  }

  lemma RemoveChildLinksChildren(t: Tree, c: Column, w: Window)
    requires Inv(t) && IsChild(t, c, w)
    ensures ChildrenLinked(RemoveChild(t, c, w))
  {
    var u := RemoveChild(t, c, w);
    var col := t.columns[c];
    assert ChildrenOk(t, c);
    RemoveKeepsNoDuplicates(col.children, w);
    forall d | d in u.columns
      ensures ChildrenOk(u, d)
    {
      assert ChildrenOk(t, d);
      if d == c {
        forall v | v in u.columns[c].children
          ensures v in u.windows && u.windows[v] == WindowState(col.workspace, c, col.output, false)
        {
          RemoveMembers(col.children, w, v);
        }
        if col.activeChild != null && col.activeChild != w {
          RemoveMembers(col.children, w, col.activeChild);
        }
      }
    }
  }

  lemma RemoveChildLinksRest(t: Tree, c: Column, w: Window)
    requires Inv(t) && IsChild(t, c, w)
    ensures var u := RemoveChild(t, c, w);
            ColumnsLinked(u) && FloatingLinked(u) && WorkspacesListed(u)
  {
    var u := RemoveChild(t, c, w);
    assert ChildrenOk(t, c);
    forall s | s in u.workspaces
      ensures ColumnsOk(u, s) && FloatingOk(u, s)
    {
      assert ColumnsOk(t, s) && FloatingOk(t, s);
    }
  }

  lemma RemoveChildLinksWindows(t: Tree, c: Column, w: Window)
    requires Inv(t) && IsChild(t, c, w)
    ensures WindowsLinked(RemoveChild(t, c, w))
  {
    var u := RemoveChild(t, c, w);
    assert ChildrenOk(t, c);
    forall v | v in u.windows
      ensures WindowOk(u, v)
    {
      RemoveMembers(t.columns[c].children, w, v);
      assert WindowOk(t, v);
    }
  }

  lemma RemoveChildKeeps(t: Tree, c: Column, w: Window)
    requires Inv(t) && IsChild(t, c, w)
    ensures Inv(RemoveChild(t, c, w))
  {
    hide ChildrenLinked, ColumnsLinked, FloatingLinked, WindowsLinked, WorkspacesListed;
    RemoveChildLinksChildren(t, c, w);
    RemoveChildLinksRest(t, c, w);
    RemoveChildLinksWindows(t, c, w);
  }

  lemma SetActiveChildKeeps(t: Tree, c: Column, w: Window)
    requires Inv(t) && IsChild(t, c, w)
    ensures Inv(SetActiveChild(t, c, w))
  {
    hide ChildrenLinked, ColumnsLinked, FloatingLinked, WindowsLinked;
    SetActiveChildLinksChildren(t, c, w);
    SetActiveChildLinksRest(t, c, w);
  }

  lemma SetActiveChildLinksRest(t: Tree, c: Column, w: Window)
    requires ColumnsLinked(t) && FloatingLinked(t) && WindowsLinked(t) && IsChild(t, c, w)
    ensures var u := SetActiveChild(t, c, w); ColumnsLinked(u) && FloatingLinked(u) && WindowsLinked(u)
  {
    var u := SetActiveChild(t, c, w);
    hide ColumnsLinked, FloatingLinked, WindowsLinked;
    ColumnsStayLinked(t, u);
    FloatingStaysLinked(t, u);
    WindowsStayLinked(t, u);
  }

  lemma SetActiveChildLinksChildren(t: Tree, c: Column, w: Window)
    requires ChildrenLinked(t) && IsChild(t, c, w)
    ensures ChildrenLinked(SetActiveChild(t, c, w))
  {
    var u := SetActiveChild(t, c, w);
    forall d | d in u.columns
      ensures ChildrenOk(u, d)
    {
      assert ChildrenOk(t, d);
    }
  }

  // ---------------------------------------------------------------------
  // A workspace gets or loses a floating window
  // ---------------------------------------------------------------------

  /** When only the windows of no column changed, the columns stay linked to their children. */
  lemma ChildrenStayLinked(t: Tree, u: Tree)
    requires ChildrenLinked(t) && u.columns == t.columns
    requires forall w :: w in t.windows && t.windows[w].column != null ==> w in u.windows && u.windows[w] == t.windows[w]
    requires forall s :: s in t.workspaces ==> s in u.workspaces && u.workspaces[s].columns == t.workspaces[s].columns
    ensures ChildrenLinked(u)
  {
    forall c | c in u.columns
      ensures ChildrenOk(u, c)
    {
      assert ChildrenOk(t, c);
    }
  }

  lemma ColumnsStayLinked(t: Tree, u: Tree)
    requires ColumnsLinked(t)
    requires forall c :: c in t.columns ==>
               && c in u.columns && u.columns[c].workspace == t.columns[c].workspace
               && u.columns[c].output == t.columns[c].output
    requires forall s :: s in u.workspaces ==>
               && s in t.workspaces
               && u.workspaces[s].columns == t.workspaces[s].columns
               && u.workspaces[s].activeColumn == t.workspaces[s].activeColumn
    ensures ColumnsLinked(u)
  {
    forall s | s in u.workspaces
      ensures ColumnsOk(u, s)
    {
      assert ColumnsOk(t, s);
    }
  }

  lemma FloatingStaysLinked(t: Tree, u: Tree)
    requires FloatingLinked(t) && u.windows == t.windows
    requires forall s :: s in u.workspaces ==>
               && s in t.workspaces
               && u.workspaces[s].floating == t.workspaces[s].floating
               && (u.workspaces[s].focusMode == t.workspaces[s].focusMode || u.workspaces[s].focusMode.Tiling?)
    ensures FloatingLinked(u)
  {
    forall s | s in u.workspaces
      ensures FloatingOk(u, s)
    {
      assert FloatingOk(t, s);
    }
  }

  lemma WindowsStayLinked(t: Tree, u: Tree)
    requires WindowsLinked(t) && u.windows == t.windows
    requires forall c :: c in t.columns ==> c in u.columns && u.columns[c].children == t.columns[c].children
    requires forall s :: s in t.workspaces ==>
               s in u.workspaces && u.workspaces[s].floating == t.workspaces[s].floating
    ensures WindowsLinked(u)
  {
    forall w | w in u.windows
      ensures WindowOk(u, w)
    {
      assert WindowOk(t, w);
    }
  }

  ghost predicate CanFloat(t: Tree, s: Workspace, w: Window) {
    && Detached(t, w) && !t.windows[w].dead && s in t.workspaces && !t.workspaces[s].dead
    && (t.windows[w].output.Some? || t.activeOutput.Some?)
  }

  lemma AddFloatingLinksFloating(t: Tree, s: Workspace, w: Window)
    requires Inv(t) && CanFloat(t, s, w)
    ensures FloatingLinked(AddFloating(t, s, w)) && WorkspacesListed(AddFloating(t, s, w))
  {
    var u := AddFloating(t, s, w);
    assert FloatingOk(t, s);
    AppendKeepsNoDuplicates(t.workspaces[s].floating, w);
    forall r | r in u.workspaces
      ensures FloatingOk(u, r)
    {
      assert FloatingOk(t, r);
    }
  }

  lemma AddFloatingLinksWindows(t: Tree, s: Workspace, w: Window)
    requires Inv(t) && CanFloat(t, s, w)
    ensures WindowsLinked(AddFloating(t, s, w))
  {
    var u := AddFloating(t, s, w);
    forall v | v in u.windows
      ensures WindowOk(u, v)
    {
      assert v in t.windows && WindowOk(t, v);
      if v == w {
        assert u.workspaces[s].floating[|t.workspaces[s].floating|] == w;
      }
    }
  }

  lemma AddFloatingKeeps(t: Tree, s: Workspace, w: Window)
    requires Inv(t) && CanFloat(t, s, w)
    ensures Inv(AddFloating(t, s, w))
  {
    hide ChildrenLinked, ColumnsLinked, FloatingLinked, WindowsLinked, WorkspacesListed;
    ChildrenStayLinked(t, AddFloating(t, s, w));
    ColumnsStayLinked(t, AddFloating(t, s, w));
    AddFloatingLinksFloating(t, s, w);
    AddFloatingLinksWindows(t, s, w);
  }

  /** A window with no output of its own cannot float in order before there is an active output. */
  lemma FloatingNeedsOutput(t: Tree, s: Workspace, w: Window)
    requires Inv(t) && Detached(t, w) && !t.windows[w].dead && s in t.workspaces && !t.workspaces[s].dead
    ensures Inv(AddFloating(t, s, w)) <==> t.windows[w].output.Some? || t.activeOutput.Some?
  {
    var u := AddFloating(t, s, w);
    if CanFloat(t, s, w) {
      AddFloatingKeeps(t, s, w);
    } else {
      assert u.workspaces[s].floating[|t.workspaces[s].floating|] == w;
      assert w in u.workspaces[s].floating && u.windows[w].output.None?;
      assert !FloatingOk(u, s);
    }
  }

  ghost predicate Floats(t: Tree, s: Workspace, w: Window) {
    s in t.workspaces && w in t.windows && w in t.workspaces[s].floating
  }

  lemma RemoveFloatingLinksFloating(t: Tree, s: Workspace, w: Window)
    requires Inv(t) && Floats(t, s, w)
    ensures FloatingLinked(RemoveFloating(t, s, w)) && WorkspacesListed(RemoveFloating(t, s, w))
  {
    var u := RemoveFloating(t, s, w);
    assert FloatingOk(t, s);
    RemoveKeepsNoDuplicates(t.workspaces[s].floating, w);
    forall r | r in u.workspaces
      ensures FloatingOk(u, r)
    {
      assert FloatingOk(t, r);
      if r == s {
        forall v | v in u.workspaces[s].floating
          ensures v in t.workspaces[s].floating && v != w
        {
          RemoveMembers(t.workspaces[s].floating, w, v);
        }
      }
    }
  }

  lemma RemoveFloatingLinksWindows(t: Tree, s: Workspace, w: Window)
    requires Inv(t) && Floats(t, s, w)
    ensures WindowsLinked(RemoveFloating(t, s, w))
  {
    var u := RemoveFloating(t, s, w);
    assert FloatingOk(t, s);
    forall v | v in u.windows
      ensures WindowOk(u, v)
    {
      RemoveMembers(t.workspaces[s].floating, w, v);
      assert v in t.windows && WindowOk(t, v);
    }
  }

  lemma RemoveFloatingKeeps(t: Tree, s: Workspace, w: Window)
    requires Inv(t) && Floats(t, s, w)
    ensures Inv(RemoveFloating(t, s, w))
  {
    assert FloatingOk(t, s);
    hide ChildrenLinked, ColumnsLinked, FloatingLinked, WindowsLinked, WorkspacesListed;
    ChildrenStayLinked(t, RemoveFloating(t, s, w));
    ColumnsStayLinked(t, RemoveFloating(t, s, w));
    RemoveFloatingLinksFloating(t, s, w);
    RemoveFloatingLinksWindows(t, s, w);
  }

  /** Moving a floating window to the end of its list, whatever the focus does. */
  lemma MoveToEndKeeps(t: Tree, s: Workspace, w: Window, mode: FocusMode)
    requires Inv(t) && Floats(t, s, w)
    ensures Inv(t.(workspaces := t.workspaces[s :=
              t.workspaces[s].(floating := Remove(t.workspaces[s].floating, w) + [w], focusMode := mode)]))
  {
    var floating := t.workspaces[s].floating;
    var moved := Remove(floating, w) + [w];
    var u := t.(workspaces := t.workspaces[s := t.workspaces[s].(floating := moved, focusMode := mode)]);
    assert FloatingOk(t, s);
    RemoveMembers(floating, w, w);
    RemoveKeepsNoDuplicates(floating, w);
    AppendKeepsNoDuplicates(Remove(floating, w), w);
    ChildrenStayLinked(t, u);
    ColumnsStayLinked(t, u);
    forall v
      ensures v in moved <==> v in floating
    {
      RemoveMembers(floating, w, v);
      assert moved[|moved| - 1] == w;
    }
    MovedLinks(t, u, s);
  }

  lemma MovedLinks(t: Tree, u: Tree, s: Workspace)
    requires FloatingLinked(t) && WindowsLinked(t) && s in t.workspaces && s in u.workspaces
    requires u == t.(workspaces := t.workspaces[s := u.workspaces[s]])
    requires NoDuplicates(u.workspaces[s].floating) && u.workspaces[s].floating != []
    requires forall v :: v in u.workspaces[s].floating <==> v in t.workspaces[s].floating
    ensures FloatingLinked(u) && WindowsLinked(u)
  {
    forall r | r in u.workspaces
      ensures FloatingOk(u, r)
    {
      assert FloatingOk(t, r) && FloatingOk(t, s);
    }
    forall v | v in u.windows
      ensures WindowOk(u, v)
    {
      assert WindowOk(t, v);
    }
  }

  lemma RaiseKeeps(t: Tree, w: Window)
    requires Inv(t) && w in t.windows
    ensures WindowOk(t, w) && Inv(Raise(t, w))
  {
    assert WindowOk(t, w);
    if IsFloating(t, w) {
      var s := t.windows[w].workspace;
      MoveToEndKeeps(t, s, w, t.workspaces[s].focusMode);
    }
  }

  lemma DetachKeeps(t: Tree, w: Window)
    requires Inv(t) && w in t.windows
    ensures WindowOk(t, w) && Inv(Detach(t, w)) && Detached(Detach(t, w), w)
  {
    assert WindowOk(t, w);
    var win := t.windows[w];
    if win.column != null {
      assert ChildrenOk(t, win.column);
      RemoveChildKeeps(t, win.column, w);
    } else if win.workspace != null {
      RemoveFloatingKeeps(t, win.workspace, w);
    }
  }

  // ---------------------------------------------------------------------
  // A workspace gets or loses a column
  // ---------------------------------------------------------------------

  ghost predicate CanInsertColumn(t: Tree, s: Workspace, c: Column, output: Option<nat>, i: nat) {
    && s in t.workspaces && !t.workspaces[s].dead && c in t.columns && output.Some?
    && t.columns[c].workspace == null && i <= |t.workspaces[s].columns|
  }

  lemma InsertColumnLinksColumns(t: Tree, s: Workspace, c: Column, output: Option<nat>, i: nat)
    requires Inv(t) && CanInsertColumn(t, s, c, output, i)
    ensures ColumnsLinked(InsertColumn(t, s, c, output, i))
  {
    var u := InsertColumn(t, s, c, output, i);
    assert ColumnsOk(t, s);
    InsertKeepsNoDuplicates(t.workspaces[s].columns, i, c);
    forall r | r in u.workspaces
      ensures ColumnsOk(u, r)
    {
      assert ColumnsOk(t, r);
      if r == s {
        forall d | d in u.workspaces[s].columns
          ensures d == c || d in t.workspaces[s].columns
        {
          InsertMembers(t.workspaces[s].columns, i, c, d);
        }
        if t.workspaces[s].activeColumn != null {
          InsertMembers(t.workspaces[s].columns, i, c, t.workspaces[s].activeColumn);
        }
      }
    }
  }

  lemma InsertColumnLinksRest(t: Tree, s: Workspace, c: Column, output: Option<nat>, i: nat)
    requires Inv(t) && CanInsertColumn(t, s, c, output, i)
    ensures var u := InsertColumn(t, s, c, output, i);
            FloatingLinked(u) && WindowsLinked(u) && WorkspacesListed(u)
  {
    var u := InsertColumn(t, s, c, output, i);
    assert ChildrenOk(t, c);
    forall r | r in u.workspaces
      ensures FloatingOk(u, r)
    {
      assert FloatingOk(t, r) && ColumnsOk(t, r);
    }
    forall v | v in u.windows
      ensures WindowOk(u, v)
    {
      assert WindowOk(t, v);
    }
  }

  lemma InsertColumnLinksChildren(t: Tree, s: Workspace, c: Column, output: Option<nat>, i: nat)
    requires Inv(t) && CanInsertColumn(t, s, c, output, i)
    ensures ChildrenLinked(InsertColumn(t, s, c, output, i))
  {
    var u := InsertColumn(t, s, c, output, i);
    forall d | d in u.columns
      ensures ChildrenOk(u, d)
    {
      assert ChildrenOk(t, d);
      InsertMembers(t.workspaces[s].columns, i, c, d);
    }
  }

  lemma InsertColumnKeeps(t: Tree, s: Workspace, c: Column, output: Option<nat>, i: nat)
    requires Inv(t) && CanInsertColumn(t, s, c, output, i)
    ensures Inv(InsertColumn(t, s, c, output, i)) && Attached(InsertColumn(t, s, c, output, i), c)
  {
    InsertMembers(t.workspaces[s].columns, i, c, c);
    hide ChildrenLinked, ColumnsLinked, FloatingLinked, WindowsLinked, WorkspacesListed;
    InsertColumnLinksColumns(t, s, c, output, i);
    InsertColumnLinksRest(t, s, c, output, i);
    InsertColumnLinksChildren(t, s, c, output, i);
  }

  /** The column at k takes over: the last before index, or else the first from there on. */
  ghost predicate TakesOver(t: Tree, columns: seq<Column>, output: Option<nat>, index: nat, k: nat)
    requires forall c :: c in columns ==> c in t.columns
  {
    && k < |columns| && t.columns[columns[k]].output == output
    && forall j :: 0 <= j < |columns| && t.columns[columns[j]].output == output ==>
         if k < index then j <= k || index <= j else k <= j
  }

  lemma {:induction false} NextColumnLoop(
    t: Tree, columns: seq<Column>, output: Option<nat>, index: nat, i: nat, next: Column?)
    returns (k: int)
    requires forall c :: c in columns ==> c in t.columns
    requires i <= |columns|
    requires next == null ==> forall j :: 0 <= j < i ==> t.columns[columns[j]].output != output
    requires next != null ==>
               exists p ::
                 && 0 <= p < i && columns[p] == next && t.columns[next].output == output
                 && (forall j :: p < j < i ==> t.columns[columns[j]].output != output)
                 && (p >= index ==> forall j :: 0 <= j < p ==> t.columns[columns[j]].output != output)
    ensures var r := NextColumnFrom(t, columns, output, index, i, next);
            if r == null
            then forall j :: 0 <= j < |columns| ==> t.columns[columns[j]].output != output
            else 0 <= k < |columns| && columns[k] == r && TakesOver(t, columns, output, index, k)
    decreases |columns| - i
  {
    if i == |columns| || (t.columns[columns[i]].output == output && next != null && i >= index) {
      k := -1;
      if next != null {
        k :| && 0 <= k < i && columns[k] == next && t.columns[next].output == output
             && (forall j :: k < j < i ==> t.columns[columns[j]].output != output)
             && (k >= index ==> forall j :: 0 <= j < k ==> t.columns[columns[j]].output != output);
      }
    } else if t.columns[columns[i]].output != output {
      k := NextColumnLoop(t, columns, output, index, i + 1, next);
    } else {
      k := NextColumnLoop(t, columns, output, index, i + 1, columns[i]);
    }
  }

  /** The column that takes over is the nearest one before on the same output, or else the nearest behind. */
  lemma NextColumnIs(t: Tree, columns: seq<Column>, output: Option<nat>, index: nat)
    requires forall c :: c in columns ==> c in t.columns
    ensures var r := NextColumn(t, columns, output, index);
            if r == null
            then forall j :: 0 <= j < |columns| ==> t.columns[columns[j]].output != output
            else exists k :: 0 <= k < |columns| && columns[k] == r && TakesOver(t, columns, output, index, k)
  {
    var _ := NextColumnLoop(t, columns, output, index, 0, null);
  }

  ghost predicate CanUnlink(t: Tree, c: Column) {
    Attached(t, c) && t.columns[c].children == []
  }

  lemma UnlinkColumnLinksColumns(t: Tree, c: Column)
    requires Inv(t) && CanUnlink(t, c)
    ensures ColumnsOk(t, t.columns[c].workspace) && ColumnsLinked(UnlinkColumn(t, c))
  {
    var s := t.columns[c].workspace;
    var columns := t.workspaces[s].columns;
    assert ColumnsOk(t, s);
    var u := UnlinkColumn(t, c);
    RemoveKeepsNoDuplicates(columns, c);
    forall d | d in Remove(columns, c)
      ensures d in columns
    {
      RemoveMembers(columns, c, d);
    }
    NextColumnIs(t, Remove(columns, c), t.columns[c].output, IndexOf(columns, c));
    if t.workspaces[s].activeColumn != null {
      RemoveMembers(columns, c, t.workspaces[s].activeColumn);
    }
    forall r | r in u.workspaces
      ensures ColumnsOk(u, r)
    {
      assert ColumnsOk(t, r);
    }
  }

  lemma UnlinkColumnLinksRest(t: Tree, c: Column)
    requires Inv(t) && CanUnlink(t, c)
    ensures ColumnsOk(t, t.columns[c].workspace)
    ensures var u := UnlinkColumn(t, c); FloatingLinked(u) && WindowsLinked(u) && WorkspacesListed(u)
  {
    var u := UnlinkColumn(t, c);
    assert ColumnsOk(t, t.columns[c].workspace);
    forall r | r in u.workspaces
      ensures FloatingOk(u, r)
    {
      assert FloatingOk(t, r);
    }
    forall v | v in u.windows
      ensures WindowOk(u, v)
    {
      assert WindowOk(t, v);
    }
  }

  lemma UnlinkColumnLinksChildren(t: Tree, c: Column)
    requires Inv(t) && CanUnlink(t, c)
    ensures ColumnsOk(t, t.columns[c].workspace) && ChildrenLinked(UnlinkColumn(t, c))
  {
    var s := t.columns[c].workspace;
    assert ColumnsOk(t, s);
    var u := UnlinkColumn(t, c);
    forall d | d in u.columns
      ensures ChildrenOk(u, d)
    {
      assert ChildrenOk(t, d);
      RemoveMembers(t.workspaces[s].columns, c, d);
    }
  }

  lemma UnlinkColumnKeepsOutput(t: Tree, c: Column)
    requires Inv(t) && CanUnlink(t, c) && OutputFollowsFocus(t)
    ensures ColumnsOk(t, t.columns[c].workspace) && OutputFollowsFocus(UnlinkColumn(t, c))
  {
    var s := t.columns[c].workspace;
    var columns := t.workspaces[s].columns;
    assert ColumnsOk(t, s);
    forall d | d in Remove(columns, c)
      ensures d in columns
    {
      RemoveMembers(columns, c, d);
    }
    NextColumnIs(t, Remove(columns, c), t.columns[c].output, IndexOf(columns, c));
  }

  lemma UnlinkColumnKeeps(t: Tree, c: Column)
    requires Inv(t) && CanUnlink(t, c)
    ensures ColumnsOk(t, t.columns[c].workspace) && Inv(UnlinkColumn(t, c))
  {
    assert ColumnsOk(t, t.columns[c].workspace);
    hide ChildrenLinked, ColumnsLinked, FloatingLinked, WindowsLinked, WorkspacesListed;
    UnlinkColumnLinksColumns(t, c);
    UnlinkColumnLinksRest(t, c);
    UnlinkColumnLinksChildren(t, c);
  }

  lemma ConsiderDestroyWorkspaceKeeps(t: Tree, s: Workspace)
    requires Inv(t) && s in t.workspaces
    ensures Inv(ConsiderDestroyWorkspace(t, s))
  {
    ConsiderDestroyWorkspaceLists(t, s);
    ConsiderDestroyWorkspaceLinks(t, s);
    hide ChildrenLinked, FloatingLinked, WindowsLinked, ColumnsLinked, WorkspacesListed;
  }

  lemma ConsiderDestroyWorkspaceLists(t: Tree, s: Workspace)
    requires WorkspacesListed(t) && s in t.workspaces
    ensures WorkspacesListed(ConsiderDestroyWorkspace(t, s))
  {
  }

  lemma ConsiderDestroyWorkspaceLinks(t: Tree, s: Workspace)
    requires ChildrenLinked(t) && ColumnsLinked(t) && FloatingLinked(t) && WindowsLinked(t) && s in t.workspaces
    ensures var u := ConsiderDestroyWorkspace(t, s);
            ChildrenLinked(u) && ColumnsLinked(u) && FloatingLinked(u) && WindowsLinked(u)
  {
    var u := ConsiderDestroyWorkspace(t, s);
    hide ChildrenLinked, FloatingLinked, WindowsLinked, ColumnsLinked;
    ColumnsStayLinked(t, u);
    ChildrenStayLinked(t, u);
    FloatingStaysLinked(t, u);
    WindowsStayLinked(t, u);
  }

  /** What column_consider_destroy demands: an empty column must still hang in its workspace. */
  ghost predicate CanConsider(t: Tree, c: Column) {
    c in t.columns && (t.columns[c].children == [] ==> Attached(t, c))
  }

  lemma ConsiderDestroyColumnKeeps(t: Tree, c: Column)
    requires Inv(t) && CanConsider(t, c)
    ensures t.columns[c].children == [] ==> ColumnsOk(t, t.columns[c].workspace)
    ensures Inv(ConsiderDestroyColumn(t, c))
  {
    if t.columns[c].children == [] {
      UnlinkColumnKeeps(t, c);
      ConsiderDestroyWorkspaceKeeps(UnlinkColumn(t, c), t.columns[c].workspace);
    }
  }

  // ---------------------------------------------------------------------
  // Focus
  // ---------------------------------------------------------------------

  lemma FocusNothingKeeps(t: Tree, s: Workspace)
    requires Inv(t) && s in t.workspaces
    ensures Inv(FocusNothing(t, s))
  {
    var u := FocusNothing(t, s);
    hide ChildrenLinked, FloatingLinked, WindowsLinked, ColumnsLinked;
    ChildrenStayLinked(t, u);
    FloatingStaysLinked(t, u);
    WindowsStayLinked(t, u);
    FocusLinksColumns(t, u, s);
  }

  lemma FocusLinksColumns(t: Tree, u: Tree, s: Workspace)
    requires ColumnsLinked(t) && s in t.workspaces && s in u.workspaces && u.columns == t.columns
    requires u.workspaces == t.workspaces[s := u.workspaces[s]]
    requires u.workspaces[s].columns == t.workspaces[s].columns
    requires u.workspaces[s].activeColumn != null ==> u.workspaces[s].activeColumn in u.workspaces[s].columns
    ensures ColumnsLinked(u)
  {
    forall r | r in u.workspaces
      ensures ColumnsOk(u, r)
    {
      assert ColumnsOk(t, r);
    }
  }

  lemma FocusColumnKeeps(t: Tree, s: Workspace, c: Column)
    requires Inv(t) && s in t.workspaces && c in t.workspaces[s].columns
    ensures ColumnsOk(t, s)
    ensures Inv(t.(workspaces := t.workspaces[s := t.workspaces[s].(activeColumn := c, focusMode := Tiling)],
                   activeOutput := if t.activeWorkspace == s then t.columns[c].output else t.activeOutput))
  {
    assert ColumnsOk(t, s);
    var u := t.(workspaces := t.workspaces[s := t.workspaces[s].(activeColumn := c, focusMode := Tiling)],
                activeOutput := if t.activeWorkspace == s then t.columns[c].output else t.activeOutput);
    hide ChildrenLinked, FloatingLinked, WindowsLinked, ColumnsLinked, ColumnsOk;
    ChildrenStayLinked(t, u);
    FloatingStaysLinked(t, u);
    WindowsStayLinked(t, u);
    FocusLinksColumns(t, u, s);
  }

  /** What workspace_set_active_window demands: the window is in this workspace. */
  ghost predicate CanFocus(t: Tree, s: Workspace, w: Window?) {
    s in t.workspaces && (w != null ==> w in t.windows && t.windows[w].workspace == s)
  }

  lemma FocusPointers(t: Tree, s: Workspace, w: Window?)
    requires Inv(t) && CanFocus(t, s, w)
    ensures var c := t.workspaces[s].activeColumn; c != null ==> c in t.columns
    ensures w != null ==>
              var c := t.windows[w].column;
              if c == null then Floats(t, s, w) else IsChild(t, c, w) && c in t.workspaces[s].columns
  {
    assert ColumnsOk(t, s);
    if w != null {
      assert WindowOk(t, w);
      if t.windows[w].column != null {
        assert ChildrenOk(t, t.windows[w].column);
      }
    }
  }

  lemma SetActiveWindowKeeps(t: Tree, s: Workspace, w: Window?)
    requires Inv(t) && CanFocus(t, s, w)
    ensures ColumnsOk(t, s) && (w != null ==> WindowOk(t, w))
    ensures Inv(SetActiveWindow(t, s, w))
  {
    FocusPointers(t, s, w);
    assert ColumnsOk(t, s) && (w != null ==> WindowOk(t, w));
    hide ChildrenLinked, ColumnsLinked, FloatingLinked, WindowsLinked, WorkspacesListed;
    if w == ActiveWindow(t, s) {
    } else if w == null {
      FocusNothingKeeps(t, s);
    } else if t.windows[w].column == null {
      MoveToEndKeeps(t, s, w, Floating);
    } else {
      var c := t.windows[w].column;
      SetActiveChildKeeps(t, c, w);
      FocusColumnKeeps(SetActiveChild(t, c, w), s, c);
    }
  }

  lemma SwitchKeeps(t: Tree, s: Workspace, output: Option<nat>)
    requires Inv(t) && s in t.listed
    ensures Inv(t.(activeWorkspace := s, activeOutput := output))
  {
    var u := t.(activeWorkspace := s, activeOutput := output);
    hide ChildrenLinked, FloatingLinked, WindowsLinked, ColumnsLinked;
    ChildrenStayLinked(t, u);
    ColumnsStayLinked(t, u);
    FloatingStaysLinked(t, u);
    WindowsStayLinked(t, u);
  }

  lemma SetActiveWorkspaceKeeps(t: Tree, s: Workspace)
    requires Inv(t) && s in t.listed
    ensures ColumnsOk(t, s)
    ensures Inv(SetActiveWorkspace(t, s))
  {
    assert ColumnsOk(t, s);
    var c := t.workspaces[s].activeColumn;
    var output := if c != null && t.columns[c].output.Some? then t.columns[c].output else t.activeOutput;
    if s != t.activeWorkspace {
      SwitchKeeps(t, s, output);
      if t.activeWorkspace != null {
        var u := t.(activeWorkspace := s, activeOutput := output);
        ConsiderDestroyWorkspaceKeeps(u, t.activeWorkspace);
        assert ConsiderDestroyWorkspace(u, t.activeWorkspace)
               == ConsiderDestroyWorkspace(t.(activeWorkspace := s), t.activeWorkspace).(activeOutput := output);
      }
    }
  }

  // ---------------------------------------------------------------------
  // Birth and death
  // ---------------------------------------------------------------------

  lemma EmptyTree()
    ensures Inv(EMPTY)
  {
  }

  lemma CreateWindowKeeps(t: Tree, w: Window)
    requires Inv(t) && w !in t.windows
    ensures Inv(CreateWindow(t, w)) && Detached(CreateWindow(t, w), w)
  {
    var u := CreateWindow(t, w);
    forall c | c in u.columns
      ensures ChildrenOk(u, c)
    {
      assert ChildrenOk(t, c);
    }
    ColumnsStayLinked(t, u);
    forall s | s in u.workspaces
      ensures FloatingOk(u, s)
    {
      assert FloatingOk(t, s);
    }
    forall v | v in u.windows
      ensures WindowOk(u, v)
    {
      assert v != w ==> WindowOk(t, v);
    }
  }

  lemma KillKeeps(t: Tree, w: Window)
    requires Inv(t) && Detached(t, w)
    ensures Inv(Kill(t, w))
  {
    var u := Kill(t, w);
    forall c | c in u.columns
      ensures ChildrenOk(u, c)
    {
      assert ChildrenOk(t, c);
    }
    ColumnsStayLinked(t, u);
    forall s | s in u.workspaces
      ensures FloatingOk(u, s)
    {
      assert FloatingOk(t, s);
    }
    forall v | v in u.windows
      ensures WindowOk(u, v)
    {
      assert WindowOk(t, v);
    }
  }

  lemma CreateColumnKeeps(t: Tree, c: Column)
    requires Inv(t) && c !in t.columns
    ensures Inv(CreateColumn(t, c))
  {
    var u := CreateColumn(t, c);
    forall d | d in u.columns
      ensures ChildrenOk(u, d)
    {
      assert d != c ==> ChildrenOk(t, d);
    }
    forall s | s in u.workspaces
      ensures ColumnsOk(u, s) && FloatingOk(u, s)
    {
      assert ColumnsOk(t, s) && FloatingOk(t, s);
    }
    forall v | v in u.windows
      ensures WindowOk(u, v)
    {
      assert WindowOk(t, v);
    }
  }

  lemma CreateWorkspaceKeeps(t: Tree, s: Workspace)
    requires Inv(t) && s !in t.workspaces
    ensures Inv(CreateWorkspace(t, s))
  {
    var u := CreateWorkspace(t, s);
    hide ChildrenLinked, WindowsLinked, ColumnsLinked, FloatingLinked;
    ChildrenStayLinked(t, u);
    WindowsStayLinked(t, u);
    CreateWorkspaceLinks(t, s);
  }

  lemma CreateWorkspaceLinks(t: Tree, s: Workspace)
    requires ColumnsLinked(t) && FloatingLinked(t) && s !in t.workspaces
    ensures ColumnsLinked(CreateWorkspace(t, s)) && FloatingLinked(CreateWorkspace(t, s))
  {
    var u := CreateWorkspace(t, s);
    forall r | r in u.workspaces
      ensures ColumnsOk(u, r) && FloatingOk(u, r)
    {
      assert r != s ==> ColumnsOk(t, r) && FloatingOk(t, r);
    }
  }
}
