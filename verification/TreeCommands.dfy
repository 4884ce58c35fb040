/**
 * The commands and client events that rearrange the window tree, as clients of
 * the operations: src/commands/move.c, src/commands/floating.c,
 * src/input/seatop_move.c, and the map and unmap handlers of
 * src/desktop/xdg_shell.c. Every run of them keeps the tree's invariant.
 */
module TreeCommands {
  import opened Seqs
  import opened Tree
  import opened TreeInvariant
  import opened TreeSteps

  datatype Direction = Left | Right | Up | Down

  /** Where a command moves a window, and whether there is another output that way. */
  datatype Heading = Heading(direction: Direction, beyond: bool)

  // ---------------------------------------------------------------------
  // Choosing a column
  // ---------------------------------------------------------------------

  /** The first of the columns on an output. */
  function FirstColumnOn(t: Tree, columns: seq<Column>, output: Option<nat>): (r: Column?)
    requires forall c :: c in columns ==> c in t.columns
    ensures r != null ==> r in columns && t.columns[r].output == output
    ensures r == null ==> forall c :: c in columns ==> t.columns[c].output != output
  {
    if columns == [] then null
    else if t.columns[columns[0]].output == output then columns[0]
    else FirstColumnOn(t, columns[1..], output)
  }

  /** Where a window of that output goes: the active column if it is there, or else the first that is. */
  function TargetColumn(t: Tree, s: Workspace, output: Option<nat>): (r: Column?)
    requires s in t.workspaces && ColumnsOk(t, s)
    ensures r != null ==> r in t.workspaces[s].columns && t.columns[r].output == output
    ensures r == null ==> forall c :: c in t.workspaces[s].columns ==> t.columns[c].output != output
  {
    var active := t.workspaces[s].activeColumn;
    if active != null && t.columns[active].output == output then active
    else FirstColumnOn(t, t.workspaces[s].columns, output)
  }

  lemma InWorkspace(t: Tree, s: Workspace, c: Column)
    requires Inv(t) && s in t.workspaces && c in t.workspaces[s].columns
    ensures Attached(t, c) && t.columns[c].workspace == s && ChildrenOk(t, c) && s in t.listed
  {
    assert ColumnsOk(t, s);
  }

  /** Puts a detached window behind the active child of the column. */
  function PutBehindActive(t: Tree, c: Column, w: Window): (u: Tree)
    requires Inv(t) && Detached(t, w) && !t.windows[w].dead && Attached(t, c)
    ensures Inv(u) && Calm(t, u, w) && u.windows[w] == Tiled(t, w, c) && u.workspaces == t.workspaces
    ensures u.columns[c].children != [] && forall d :: d in t.columns && d != c ==> u.columns[d] == t.columns[d]
  {
    assert ChildrenOk(t, c);
    PutInColumn(t, c, w, BehindActive(t.columns[c]))
  }

  /** Puts a detached window in a new first column. */
  function PutInNewColumn(t: Tree, s: Workspace, w: Window, output: Option<nat>, spare: Column): (u: Tree)
    requires Inv(t) && Detached(t, w) && !t.windows[w].dead && s in t.listed && output.Some? && spare !in t.columns
    ensures Inv(u) && OnlyMoves(t, u, w) && ColumnsPersist(t, u) && u.windows.Keys == t.windows.Keys
    ensures u.windows[w] == t.windows[w].(workspace := s, column := spare, output := output)
    ensures u.listed == t.listed && u.activeWorkspace == t.activeWorkspace
  {
    assert s in t.workspaces;
    hide Inv, Attached, Calm, OnlyMoves, PutBehindActive, NewColumn, Remembers, OutputStays, ColumnsPersist;
    var made := NewColumn(t, s, output, 0, spare);
    var u := PutBehindActive(made, spare, w);
    CalmMeans(made, u, w);
    CalmLists(made, u, w);
    PersistRemembers(t, made);
    NoneMoves(t, made, w);
    MovesAfterMoves(t, made, u, w);
    PersistAfterPersist(t, made, u);
    u
  }

  lemma PersistRemembers(t: Tree, u: Tree)
    requires ColumnsPersist(t, u)
    ensures Remembers(t, u)
  {
  }

  /** Puts a detached window in the target column, or in a new first one. */
  function PutOnOutput(t: Tree, s: Workspace, w: Window, output: Option<nat>, spare: Column): (u: Tree)
    requires Inv(t) && Detached(t, w) && !t.windows[w].dead && s in t.listed && output.Some? && spare !in t.columns
    ensures Inv(u) && OnlyMoves(t, u, w) && ColumnsPersist(t, u) && u.windows.Keys == t.windows.Keys
    ensures w in u.windows && u.windows[w].workspace == s && u.windows[w].column != null
    ensures u.windows[w].output == output && !u.windows[w].dead
    ensures u.listed == t.listed && u.activeWorkspace == t.activeWorkspace
  {
    assert ColumnsOk(t, s);
    hide Calm, OnlyMoves, PutBehindActive, Remembers, OutputStays, ColumnsPersist;
    var target := TargetColumn(t, s, output);
    if target == null then PutInNewColumn(t, s, w, output, spare)
    else
      InWorkspace(t, s, target);
      var u := PutBehindActive(t, target, w);
      CalmMeans(t, u, w);
      CalmLists(t, u, w);
      u
  }

  // ---------------------------------------------------------------------
  // src/commands/floating.c
  // ---------------------------------------------------------------------

  /** Out of where it is, and on top of the floating windows of its workspace. */
  function Refloat(t: Tree, w: Window): (u: Tree)
    requires Inv(t) && IsPlaced(t, w)
    ensures Inv(u) && Calm(t, u, w) && t.windows[w].workspace in u.listed
    ensures u.windows[w].workspace == t.windows[w].workspace && u.windows[w].column == null
    ensures t.windows[w].column != null ==> Attached(u, t.windows[w].column)
    ensures t.windows[w].workspace in u.workspaces && u.workspaces[t.windows[w].workspace].floating != []
  {
    Pointers(t, w);
    var s, c := t.windows[w].workspace, t.windows[w].column;
    var out := TakeOut(t, w);
    var u := PutFloating(out, s, w);
    CalmAfterCalm(t, out, u, w);
    assert c != null ==> Attached(u, c) by {
      if c != null {
        StaysAttached(t, u, c);
      }
    }
    u
  }

  /** The column that the window left can be considered for destruction. */
  lemma RefloatMeans(t: Tree, w: Window)
    requires Inv(t) && IsPlaced(t, w)
    ensures w in Refloat(t, w).windows
    ensures t.windows[w].column != null ==> CanConsider(Refloat(t, w), t.windows[w].column)
  {
    hide Inv;
  }

  function FloatOn(t: Tree, w: Window): (u: Tree)
    requires Inv(t) && IsPlaced(t, w)
    ensures Inv(u) && OnlyMoves(t, u, w) && t.windows[w].workspace in u.listed
    ensures w in u.windows && u.windows[w].workspace == t.windows[w].workspace && u.windows[w].column == null
  {
    hide Inv, Calm, OnlyMoves, Refloat, Discard, Attached, Remembers, OutputStays;
    var c, floated := t.windows[w].column, Refloat(t, w);
    CalmMeans(t, floated, w);
    RefloatMeans(t, w);
    if c == null then floated
    else
      var u := Discard(floated, c);
      NoneMoves(floated, u, w);
      MovesAfterMoves(t, floated, u, w);
      u
  }

  function FloatOff(t: Tree, w: Window, spare: Column): (u: Tree)
    requires Inv(t) && IsPlaced(t, w) && spare !in t.columns
    ensures Inv(u) && OnlyMoves(t, u, w) && t.windows[w].workspace in u.listed
    ensures w in u.windows && u.windows[w].workspace == t.windows[w].workspace && u.windows[w].column != null
  {
    Pointers(t, w);
    PutOnOutput(TakeOut(t, w), t.windows[w].workspace, w, t.windows[w].output, spare)
  }

  /** cmd_floating, on a window that had the focus of its workspace or not. */
  function Float(t: Tree, w: Window, enable: bool, focused: bool, spare: Column): (u: Tree)
    requires Inv(t) && IsPlaced(t, w) && spare !in t.columns
    ensures Inv(u) && OnlyMoves(t, u, w)
    ensures w in u.windows && u.windows[w].workspace == t.windows[w].workspace
    ensures u.windows[w].column == null <==> enable
  {
    Pointers(t, w);
    hide Inv, OnlyMoves, Remembers, OutputStays, FloatOn, FloatOff, SameLists;
    var s := t.windows[w].workspace;
    var u := if enable then FloatOn(t, w) else FloatOff(t, w, spare);
    if focused then FocusKeepsMoved(t, u, s, w); Focus(u, s, w) else u
  }

  lemma FocusKeepsMoved(t: Tree, u: Tree, s: Workspace, w: Window)
    requires OnlyMoves(t, u, w) && Inv(u) && CanFocus(u, s, w)
    ensures OnlyMoves(t, Focus(u, s, w), w)
  {
    hide Inv, OnlyMoves, Remembers, OutputStays;
    var v := Focus(u, s, w);
    SameListsPersist(u, v);
    NoneMoves(u, v, w);
    MovesAfterMoves(t, u, v, w);
  }

  // ---------------------------------------------------------------------
  // src/commands/move.c
  // ---------------------------------------------------------------------

  /** move_window_to_column_from_maybe_direction. */
  function MoveToColumn(t: Tree, w: Window, c: Column, direction: Option<Direction>): (u: Tree)
    requires Inv(t) && IsPlaced(t, w) && Attached(t, c)
    ensures Inv(u) && OnlyMoves(t, u, w) && ColumnsPersist(t, u) && u.windows.Keys == t.windows.Keys
    ensures w in u.windows && u.windows[w].column == c && u.windows[w].workspace == t.columns[c].workspace
    ensures u.windows[w].output == t.columns[c].output
    ensures u.listed == t.listed && u.activeWorkspace == t.activeWorkspace
  {
    MoveToColumnStays(t, w, c);
    hide Inv, Calm, OnlyMoves, ColumnsPersist, Attached, OutputStays, Remembers, PutBehindActive;
    Unmoved(t, w);
    if t.windows[w].column == c then t
    else
      var out := TakeOut(t, w);
      var u := if direction == Some(Down) then PutInColumn(out, c, w, 0)
               else if direction == Some(Up) then PutInColumn(out, c, w, |t.columns[c].children|)
               else PutBehindActive(out, c, w);
      CalmAfterCalm(t, out, u, w);
      CalmMeans(t, u, w);
      CalmLists(t, u, w);
      u
  }

  lemma CalmLists(t: Tree, u: Tree, w: Window)
    requires Calm(t, u, w)
    ensures u.listed == t.listed && u.activeWorkspace == t.activeWorkspace
  {
  }

  /** The column is still there when the window has left its place. */
  lemma MoveToColumnStays(t: Tree, w: Window, c: Column)
    requires Inv(t) && IsPlaced(t, w) && Attached(t, c)
    ensures var out := TakeOut(t, w); Attached(out, c) && !out.windows[w].dead
    ensures var out := TakeOut(t, w);
            out.columns[c].workspace == t.columns[c].workspace && out.columns[c].output == t.columns[c].output
    ensures t.windows[w].column == c ==>
              t.windows[w].workspace == t.columns[c].workspace && t.windows[w].output == t.columns[c].output
    ensures t.windows[w].column != c ==> TakeOut(t, w).columns[c] == t.columns[c]
  {
    Pointers(t, w);
    StaysAttached(t, TakeOut(t, w), c);
  }

  /** move_window_to_workspace. */
  function MoveToWorkspace(t: Tree, w: Window, s: Workspace, spare: Column): (u: Tree)
    requires Inv(t) && IsPlaced(t, w) && s in t.listed && spare !in t.columns
    ensures Inv(u) && OnlyMoves(t, u, w) && ColumnsPersist(t, u)
    ensures w in u.windows && u.windows[w].workspace == s && (u.windows[w].column == null <==> t.windows[w].column == null)
    ensures u.listed == t.listed && u.activeWorkspace == t.activeWorkspace
  {
    Pointers(t, w);
    if t.windows[w].workspace == s then t
    else if t.windows[w].column == null then PutFloating(TakeOut(t, w), s, w)
    else
      assert ColumnsOk(t, s);
      var target := TargetColumn(t, s, t.windows[w].output);
      if target == null then
        var made := NewColumn(t, s, t.windows[w].output, 0, spare);
        MoveToColumn(made, w, spare, None)
      else
        InWorkspace(t, s, target);
        MoveToColumn(t, w, target, None)
  }

  /** Considers a column, if any, and then a workspace for destruction. */
  function CleanUp(t: Tree, c: Column?, s: Workspace): (u: Tree)
    requires Inv(t) && (c != null ==> CanConsider(t, c)) && s in t.workspaces
    ensures Inv(u) && u.windows == t.windows && Remembers(t, u) && OutputStays(t, u)
  {
    hide Inv, Remembers, OutputStays, Discard, ConsiderDestroyWorkspace;
    var v := if c == null then t else Discard(t, c);
    KnownStays(t, v, s);
    ConsiderDestroyWorkspaceKeeps(v, s);
    ConsideredStays(t, v, s);
    ConsiderDestroyWorkspace(v, s)
  }

  lemma KnownStays(t: Tree, u: Tree, s: Workspace)
    requires s in t.workspaces && (u == t || Remembers(t, u))
    ensures s in u.workspaces && (u == t ==> Remembers(t, u) && OutputStays(t, u))
  {
  }

  lemma ConsideredStays(t: Tree, u: Tree, s: Workspace)
    requires s in u.workspaces && Remembers(t, u) && OutputStays(t, u)
    ensures var v := ConsiderDestroyWorkspace(u, s); Remembers(t, v) && OutputStays(t, v) && v.windows == u.windows
  {
  }

  /** The workspace branch of cmd_move_window. */
  function SendToWorkspace(t: Tree, w: Window, s: Workspace, spare: Column): (u: Tree)
    requires Inv(t) && IsPlaced(t, w) && s in t.listed && spare !in t.columns
    ensures Inv(u) && OnlyMoves(t, u, w)
    ensures w in u.windows && u.windows[w].workspace == s && (u.windows[w].column == null <==> t.windows[w].column == null)
  {
    Pointers(t, w);
    var c := t.windows[w].column;
    var moved := MoveToWorkspace(t, w, s, spare);
    var focused := Focus(moved, s, w);
    assert c != null ==> Attached(focused, c) by {
      if c != null {
        StaysAttached(t, moved, c);
        StaysAttached(moved, focused, c);
      }
    }
    CleanUp(focused, c, t.windows[w].workspace)
  }

  /** The nearest column before, or behind, index i on the same output. */
  function ColumnBefore(t: Tree, columns: seq<Column>, output: Option<nat>, i: nat): (r: Column?)
    requires i <= |columns| && forall c :: c in columns ==> c in t.columns
    ensures r != null ==> r in columns[..i] && t.columns[r].output == output
    ensures r == null ==> forall k :: 0 <= k < i ==> t.columns[columns[k]].output != output
  {
    if i == 0 then null
    else if t.columns[columns[i - 1]].output == output then columns[i - 1]
    else ColumnBefore(t, columns, output, i - 1)
  }

  function ColumnBehind(t: Tree, columns: seq<Column>, output: Option<nat>, i: nat): (r: Column?)
    requires i <= |columns| && forall c :: c in columns ==> c in t.columns
    ensures r != null ==> r in columns[i..] && t.columns[r].output == output
    ensures r == null ==> forall k :: i <= k < |columns| ==> t.columns[columns[k]].output != output
    decreases |columns| - i
  {
    if i == |columns| then null
    else if t.columns[columns[i]].output == output then columns[i]
    else ColumnBehind(t, columns, output, i + 1)
  }

  lemma IndexIs<T>(s: seq<T>, k: nat)
    requires NoDuplicates(s) && k < |s|
    ensures IndexOf(s, s[k]) == k
  {
  }

  function Swapped<T>(s: seq<T>, i: nat, j: nat): seq<T>
    requires i < |s| && j < |s|
  {
    s[i := s[j]][j := s[i]]
  }

  /** Taking an item out and putting it back on the other side of its neighbour swaps the two. */
  lemma PastNeighbour<T>(s: seq<T>, i: nat, j: nat)
    requires NoDuplicates(s) && i < |s| && j < |s| && (j == i + 1 || i == j + 1)
    ensures var rest := Remove(s, s[i]);
            && s[j] in rest
            && Insert(rest, IndexOf(rest, s[j]) + if i < j then 1 else 0, s[i]) == Swapped(s, i, j)
  {
    var rest := Remove(s, s[i]);
    IndexIs(s, i);
    RemoveKeepsNoDuplicates(s, s[i]);
    var k := if i < j then i else j;
    assert rest[k] == s[j];
    IndexIs(rest, k);
  }

  lemma ChildrenAre(t: Tree, c: Column)
    requires Inv(t) && c in t.columns
    ensures ChildrenOk(t, c)
  {
  }

  /** Next to the sibling, in the column without the window. */
  function IndexPast(t: Tree, w: Window, i: nat, j: nat): nat
    requires Inv(t) && IsPlaced(t, w) && t.windows[w].column in t.columns
    requires var children := t.columns[t.windows[w].column].children;
             i < |children| && j < |children| && children[i] == w && (j == i + 1 || i == j + 1)
  {
    var children := t.columns[t.windows[w].column].children;
    ChildrenAre(t, t.windows[w].column);
    PastNeighbour(children, i, j);
    IndexOf(Remove(children, w), children[j]) + if i < j then 1 else 0
  }

  lemma PastIs(t: Tree, w: Window, k: nat)
    requires Inv(t) && IsPlaced(t, w) && t.windows[w].column in t.columns
    requires CanInsertChild(TakeOut(t, w), t.windows[w].column, w, k)
    requires TakeOut(t, w).columns[t.windows[w].column].workspace == t.windows[w].workspace
    ensures var c := t.windows[w].column;
            var u := PutInColumn(TakeOut(t, w), c, w, k);
            && Calm(t, u, w) && u.windows[w].column == c && u.windows[w].workspace == t.windows[w].workspace
            && u.windows[w].output == TakeOut(t, w).columns[c].output
            && u.columns[c].children == Insert(TakeOut(t, w).columns[c].children, k, w)
  {
    hide Inv, Insert, Calm, Attached, TakeOut;
    CalmAfterCalm(t, TakeOut(t, w), PutInColumn(TakeOut(t, w), t.windows[w].column, w, k), w);
  }

  /** The sibling is still there when the window has left its place, and the window may come back next to it. */
  lemma PastStays(t: Tree, w: Window, i: nat, j: nat)
    requires Inv(t) && IsPlaced(t, w) && t.windows[w].column in t.columns
    requires var children := t.columns[t.windows[w].column].children;
             i < |children| && j < |children| && children[i] == w && (j == i + 1 || i == j + 1)
    ensures var c, out := t.windows[w].column, TakeOut(t, w);
            && c in out.columns && out.columns[c].workspace == t.windows[w].workspace
            && out.columns[c].output == t.windows[w].output
            && CanInsertChild(out, c, w, IndexPast(t, w, i, j))
            && Insert(out.columns[c].children, IndexPast(t, w, i, j), w) == Swapped(t.columns[c].children, i, j)
  {
    hide Insert, Swapped, Remove, IndexOf, Calm, WindowsLinked, ColumnsLinked, FloatingLinked, ChildrenLinked;
    hide OutputStays, Remembers, Attached;
    Pointers(t, w);
    var c := t.windows[w].column;
    ChildrenAre(t, c);
    PastNeighbour(t.columns[c].children, i, j);
    MoveToColumnStays(t, w, c);
  }

  /** Up or down: past the sibling on that side, in the same column. */
  function MovePast(t: Tree, w: Window, i: nat, j: nat): (u: Tree)
    requires Inv(t) && IsPlaced(t, w) && t.windows[w].column in t.columns
    requires var children := t.columns[t.windows[w].column].children;
             i < |children| && j < |children| && children[i] == w && (j == i + 1 || i == j + 1)
    ensures Inv(u) && Calm(t, u, w) && u.windows[w].column == t.windows[w].column
    ensures u.windows[w].workspace == t.windows[w].workspace && u.windows[w].output == t.windows[w].output
    ensures u.columns[t.windows[w].column].children == Swapped(t.columns[t.windows[w].column].children, i, j)
  {
    PastStays(t, w, i, j);
    PastIs(t, w, IndexPast(t, w, i, j));
    hide *;
    PutInColumn(TakeOut(t, w), t.windows[w].column, w, IndexPast(t, w, i, j))
  }

  /** The next column on the same output, to the left or to the right of the window's. */
  function Neighbour(t: Tree, w: Window, left: bool): (r: Column?)
    requires Inv(t) && IsPlaced(t, w) && IsTiled(t, w)
    ensures t.windows[w].workspace in t.workspaces && t.windows[w].column in t.columns
    ensures r != null ==> r in t.workspaces[t.windows[w].workspace].columns && r != t.windows[w].column
    ensures r != null ==> r in t.columns && t.columns[r].output == t.windows[w].output
  {
    Pointers(t, w);
    var c: Column := t.windows[w].column;
    var columns := t.workspaces[t.windows[w].workspace].columns;
    var i := IndexOf(columns, c);
    if left then ColumnBefore(t, columns, t.columns[c].output, i)
    else ColumnBehind(t, columns, t.columns[c].output, i + 1)
  }

  /** Whether window_tiling_move_in_direction finds somewhere to go on the window's own output. */
  predicate CanGo(t: Tree, w: Window, direction: Direction)
    requires Inv(t) && IsPlaced(t, w) && IsTiled(t, w)
  {
    Pointers(t, w);
    var children := t.columns[t.windows[w].column].children;
    match direction
    case Up => IndexOf(children, w) > 0
    case Down => IndexOf(children, w) + 1 < |children|
    case Left => |children| != 1 || Neighbour(t, w, true) != null
    case Right => |children| != 1 || Neighbour(t, w, false) != null
  }

  /** Left or right: into the neighbour, or into a new column beyond the last one. */
  function MoveSideways(t: Tree, w: Window, left: bool, spare: Column): (u: Tree)
    requires Inv(t) && IsPlaced(t, w) && IsTiled(t, w) && spare !in t.columns
    ensures Inv(u) && OnlyMoves(t, u, w) && ColumnsPersist(t, u) && IsPlaced(u, w)
    ensures u.windows[w].workspace == t.windows[w].workspace && u.windows[w].output == t.windows[w].output
    ensures u.windows[w].column != null && u.windows[w].column != t.windows[w].column
    ensures u.windows[w].column == if Neighbour(t, w, left) == null then spare else Neighbour(t, w, left)
  {
    Pointers(t, w);
    var s, next := t.windows[w].workspace, Neighbour(t, w, left);
    var direction := Some(if left then Left else Right);
    if next == null then
      var made := NewColumn(t, s, t.windows[w].output, if left then 0 else |t.workspaces[s].columns|, spare);
      MoveToColumn(made, w, spare, direction)
    else
      InWorkspace(t, s, next);
      MoveToColumn(t, w, next, direction)
  }

  /** The part of window_tiling_move_in_direction that stays among the window's neighbours. */
  function MoveWithin(t: Tree, w: Window, direction: Direction, spare: Column): (r: (Tree, bool))
    requires Inv(t) && IsPlaced(t, w) && IsTiled(t, w) && spare !in t.columns
    ensures Inv(r.0) && OnlyMoves(t, r.0, w) && ColumnsPersist(t, r.0) && IsPlaced(r.0, w) && IsTiled(r.0, w)
    ensures r.1 == CanGo(t, w, direction) && (!r.1 ==> r.0 == t)
    ensures r.0.windows[w].workspace == t.windows[w].workspace && r.0.windows[w].output == t.windows[w].output
  {
    hide Calm, ColumnsPersist, OnlyMoves, ColumnBefore, ColumnBehind, Swapped;
    Pointers(t, w);
    if !CanGo(t, w, direction) then
      Unmoved(t, w);
      (t, false)
    else if direction == Left || direction == Right then (MoveSideways(t, w, direction == Left, spare), true)
    else
      var i := IndexOf(t.columns[t.windows[w].column].children, w);
      var u := MovePast(t, w, i, if direction == Up then i - 1 else i + 1);
      CalmMeans(t, u, w);
      (u, true)
  }

  lemma Unmoved(t: Tree, w: Window?)
    ensures OnlyMoves(t, t, w) && ColumnsPersist(t, t)
  {
  }

  /** window_tiling_move_to_output_from_direction asks the workspace's active column for its output. */
  ghost predicate CanCross(t: Tree, w: Window, h: Heading)
    requires Inv(t) && IsPlaced(t, w) && IsTiled(t, w)
  {
    Pointers(t, w);
    h.beyond && !CanGo(t, w, h.direction) ==> t.workspaces[t.windows[w].workspace].activeColumn != null
  }

  /** Whether the command moves the window: among its neighbours, or because there is another output that way. */
  predicate Goes(t: Tree, w: Window, h: Heading)
    requires Inv(t) && IsPlaced(t, w) && IsTiled(t, w)
  {
    CanGo(t, w, h.direction) || h.beyond
  }

  /**
   * The column that window_tiling_move_to_output_from_direction picks. The
   * output it is given is the window's own, not the next one: the last column
   * there when moving left, otherwise the first, or the active one downwards.
   */
  function EdgeColumn(t: Tree, w: Window, direction: Direction): (c: Column)
    requires Inv(t) && IsPlaced(t, w) && IsTiled(t, w)
    requires t.windows[w].workspace in t.workspaces && t.workspaces[t.windows[w].workspace].activeColumn != null
    ensures c in t.workspaces[t.windows[w].workspace].columns && c in t.columns
    ensures t.columns[c].output == t.windows[w].output
  {
    Pointers(t, w);
    var ws, output := t.workspaces[t.windows[w].workspace], t.windows[w].output;
    var first, last := FirstColumnOn(t, ws.columns, output), ColumnBefore(t, ws.columns, output, |ws.columns|);
    var active: Column := ws.activeColumn;
    OwnColumnCounts(t, w);
    if direction == Down && t.columns[active].output == output then active
    else if direction == Left then last
    else first
  }

  /** The window's own column is one of those on its output. */
  lemma OwnColumnCounts(t: Tree, w: Window)
    requires Inv(t) && IsPlaced(t, w) && IsTiled(t, w)
    ensures t.windows[w].workspace in t.workspaces && ColumnsOk(t, t.windows[w].workspace)
    ensures var columns, output := t.workspaces[t.windows[w].workspace].columns, t.windows[w].output;
            FirstColumnOn(t, columns, output) != null && ColumnBefore(t, columns, output, |columns|) != null
  {
    Pointers(t, w);
    var columns := t.workspaces[t.windows[w].workspace].columns;
    var k :| 0 <= k < |columns| && columns[k] == t.windows[w].column;
  }

  /** Beyond the edge: to that column, even if it is the window's own. */
  function MoveBeyond(t: Tree, w: Window, direction: Direction): (u: Tree)
    requires Inv(t) && IsPlaced(t, w) && IsTiled(t, w)
    requires t.windows[w].workspace in t.workspaces && t.workspaces[t.windows[w].workspace].activeColumn != null
    ensures Inv(u) && OnlyMoves(t, u, w) && ColumnsPersist(t, u) && IsPlaced(u, w) && IsTiled(u, w)
    ensures u.windows[w].column == EdgeColumn(t, w, direction)
    ensures u.windows[w].workspace == t.windows[w].workspace && u.windows[w].output == t.windows[w].output
  {
    var c := EdgeColumn(t, w, direction);
    InWorkspace(t, t.windows[w].workspace, c);
    hide Inv, OnlyMoves, ColumnsPersist, Attached, EdgeColumn;
    MoveToColumn(t, w, c, Some(direction))
  }

  /** window_tiling_move_in_direction: whether the window moved, and the tree afterwards. */
  function MoveInDirection(t: Tree, w: Window, h: Heading, spare: Column): (r: (Tree, bool))
    requires Inv(t) && IsPlaced(t, w) && IsTiled(t, w) && spare !in t.columns && CanCross(t, w, h)
    ensures Inv(r.0) && OnlyMoves(t, r.0, w) && ColumnsPersist(t, r.0) && IsPlaced(r.0, w) && IsTiled(r.0, w)
    ensures r.1 == Goes(t, w, h) && (!r.1 ==> r.0 == t)
    ensures r.0.windows[w].workspace == t.windows[w].workspace && r.0.windows[w].output == t.windows[w].output
  {
    Pointers(t, w);
    hide Inv, OnlyMoves, ColumnsPersist, CanGo, ColumnsOk, Attached;
    if h.beyond && !CanGo(t, w, h.direction) then (MoveBeyond(t, w, h.direction), true)
    else MoveWithin(t, w, h.direction, spare)
  }

  /** The tiling part of cmd_move_in_direction: a window that moved takes the focus along. */
  function Move(t: Tree, w: Window, h: Heading, spare: Column): (u: Tree)
    requires Inv(t) && IsPlaced(t, w) && IsTiled(t, w) && spare !in t.columns && CanCross(t, w, h)
    ensures Inv(u) && OnlyMoves(t, u, w) && IsPlaced(u, w) && IsTiled(u, w)
    ensures u.windows[w].workspace == t.windows[w].workspace && u.windows[w].output == t.windows[w].output
    ensures if Goes(t, w, h) then u.activeWorkspace == u.windows[w].workspace else u == t
  {
    hide Inv, OnlyMoves, ColumnsPersist, Goes, CanCross, MoveInDirection, Discard, FocusWindow, SameLists, OutputStays;
    hide Remembers, Attached;
    Unmoved(t, w);
    var (moved, success) := MoveInDirection(t, w, h, spare);
    if !success then t
    else
      MovedMoves(t, moved, w);
      FocusWindow(Discard(moved, t.windows[w].column), w)
  }

  /** After the move, the column that was left can be considered, and the window still be focused. */
  lemma MovedMoves(t: Tree, moved: Tree, w: Window)
    requires Inv(t) && IsPlaced(t, w) && IsTiled(t, w)
    requires Inv(moved) && OnlyMoves(t, moved, w) && ColumnsPersist(t, moved) && IsPlaced(moved, w)
    ensures CanConsider(moved, t.windows[w].column)
    ensures var v := Discard(moved, t.windows[w].column);
            && IsPlaced(v, w) && v.windows == moved.windows && OnlyMoves(t, FocusWindow(v, w), w)
  {
    TiledPointers(t, w);
    hide Inv, OnlyMoves, ColumnsPersist, Attached, Discard, FocusWindow, SameLists, OutputStays, Remembers;
    StaysAttached(t, moved, t.windows[w].column);
    var v := Discard(moved, t.windows[w].column);
    var u := FocusWindow(v, w);
    SameListsPersist(v, u);
    NoneMoves(moved, v, w);
    NoneMoves(v, u, w);
    MovesAfterMoves(t, moved, v, w);
    MovesAfterMoves(t, v, u, w);
  }

  // ---------------------------------------------------------------------
  // src/input/seatop_move.c
  // ---------------------------------------------------------------------

  lemma RaiseMoves(t: Tree, w: Window)
    requires Inv(t) && w in t.windows
    ensures WindowOk(t, w) && Inv(Raise(t, w)) && Raise(t, w).windows == t.windows
  {
    RaiseKeeps(t, w);
  }

  /** do_detach: the dragged window floats, on top and with the focus. */
  function DragDetach(t: Tree, w: Window): (u: Tree)
    requires Inv(t) && IsPlaced(t, w)
    ensures Inv(u) && OnlyMoves(t, u, w)
    ensures w in u.windows && IsFloating(u, w) && u.windows[w].workspace == t.windows[w].workspace
  {
    var v := if IsFloating(t, w) then t else FocusWindow(FloatOn(t, w), w);
    RaiseMoves(v, w);
    Raise(v, w)
  }

  /** Where finalize_move puts the window: behind the preview's target, or else first. */
  function DropIndex(children: seq<Window>, target: Window?): (i: nat)
    requires target != null ==> target in children
    ensures i <= |children|
  {
    if target == null then 0 else var sibling: Window := target; IndexOf(children, sibling) + 1
  }

  /**
   * What the drop asks for: the destination was made in some workspace, and the
   * preview's target, if there is one, is in a column, as column_add_sibling
   * asserts. Nothing sees to it that the destination still hangs in its
   * workspace, or that the target is still its child.
   */
  ghost predicate CanDrop(t: Tree, w: Window, c: Column, target: Window?) {
    && IsPlaced(t, w) && IsFloating(t, w)
    && c in t.columns && t.columns[c].workspace in t.workspaces
    && (target != null ==> IsTiled(t, target))
  }

  /** The column the window ends up in. */
  function LandingColumn(t: Tree, c: Column, target: Window?): (d: Column)
    requires Inv(t) && (target != null ==> IsTiled(t, target))
    ensures target != null ==> IsChild(t, d, target) && Attached(t, d)
    ensures target == null ==> d == c
  {
    if target == null then c
    else
      TiledPointers(t, target);
      t.windows[target].column
  }

  lemma TiledPointers(t: Tree, w: Window)
    requires Inv(t) && IsTiled(t, w)
    ensures IsChild(t, t.windows[w].column, w) && Attached(t, t.windows[w].column)
  {
    assert WindowOk(t, w);
    assert ChildrenOk(t, t.windows[w].column);
  }

  lemma FloatingOut(t: Tree, w: Window)
    requires Inv(t) && IsPlaced(t, w) && IsFloating(t, w)
    ensures var out := TakeOut(t, w); out.columns == t.columns && !out.windows[w].dead
    ensures forall d :: Attached(TakeOut(t, w), d) <==> Attached(t, d)
  {
    Pointers(t, w);
  }

  /** The window joins the column it is dropped on, wherever that column hangs. */
  function DropInColumn(t: Tree, w: Window, c: Column, target: Window?): (u: Tree)
    requires Inv(t) && CanDrop(t, w, c, target)
  {
    FloatingOut(t, w);
    var d := LandingColumn(t, c, target);
    InsertChild(TakeOut(t, w), d, w, DropIndex(t.columns[d].children, target))
  }

  lemma DropInColumnMeans(t: Tree, w: Window, c: Column, target: Window?)
    requires Inv(t) && CanDrop(t, w, c, target)
    ensures var d, u := LandingColumn(t, c, target), DropInColumn(t, w, c, target);
            && d in u.columns && u.columns[d].children == Insert(t.columns[d].children, DropIndex(t.columns[d].children, target), w)
            && u.columns[d].workspace == t.columns[d].workspace && u.windows[w].column == d
            && u.windows[w].workspace == t.columns[d].workspace && u.windows[w].workspace in u.workspaces
            && OnlyMoves(t, u, w) && u.activeWorkspace == t.activeWorkspace
            && (Attached(u, d) <==> Attached(t, d))
  {
    hide Insert, DropIndex, Calm, OnlyMoves, Remembers, OutputStays;
    Pointers(t, w);
    FloatingOut(t, w);
    var d, out := LandingColumn(t, c, target), TakeOut(t, w);
    InsertChildCalm(out, d, w, DropIndex(t.columns[d].children, target));
    CalmAfterCalm(t, out, DropInColumn(t, w, c, target), w);
    CalmMeans(t, DropInColumn(t, w, c, target), w);
    CalmLists(t, DropInColumn(t, w, c, target), w);
  }

  lemma DropKeeps(t: Tree, w: Window, c: Column, target: Window?)
    requires Inv(t) && CanDrop(t, w, c, target)
    ensures Inv(DropInColumn(t, w, c, target)) <==> target != null || Attached(t, c)
  {
    FloatingOut(t, w);
    var d, u := LandingColumn(t, c, target), DropInColumn(t, w, c, target);
    DropInColumnMeans(t, w, c, target);
    if Attached(t, d) {
      hide Inv;
      InsertChildKeeps(TakeOut(t, w), d, w, DropIndex(t.columns[d].children, target));
    } else {
      assert !ChildrenOk(u, d);
    }
  }

  lemma DropDefined(t: Tree, w: Window, c: Column, target: Window?)
    requires Inv(t) && CanDrop(t, w, c, target)
    ensures var u := DropInColumn(t, w, c, target);
            CanShow(u, w) && ActiveOnOutput(u, u.windows[w].workspace)
  {
    DropInColumnMeans(t, w, c, target);
    Pointers(t, w);
    FloatingOut(t, w);
    var s := t.columns[LandingColumn(t, c, target)].workspace;
    assert ColumnsOk(t, s);
  }

  /** The drop of finalize_move on a column: the window joins it and takes the focus. */
  function Drop(t: Tree, w: Window, c: Column, target: Window?): (u: Tree)
    requires Inv(t) && CanDrop(t, w, c, target)
  {
    DropDefined(t, w, c, target);
    SetFocusedWindow(DropInColumn(t, w, c, target), w)
  }

  /**
   * The window comes right behind the target, wherever that is by now, and
   * first in the destination if there is no target; nothing else moves.
   */
  lemma DropLands(t: Tree, w: Window, c: Column, target: Window?)
    requires Inv(t) && CanDrop(t, w, c, target)
    ensures var d, u := LandingColumn(t, c, target), Drop(t, w, c, target);
            && OnlyMoves(t, u, w) && w in u.windows && u.windows[w].column == d
            && u.windows[w].workspace == t.columns[d].workspace && u.activeWorkspace == u.windows[w].workspace
            && d in u.columns
            && u.columns[d].children == Insert(t.columns[d].children, DropIndex(t.columns[d].children, target), w)
  {
    hide Inv, Insert, DropIndex, OnlyMoves, Attached, DropInColumn, SetFocusedWindow, CanDrop, SameLists, OutputStays;
    var put := DropInColumn(t, w, c, target);
    DropInColumnMeans(t, w, c, target);
    DropDefined(t, w, c, target);
    ShowFocuses(put, w);
    ShowKeepsOutput(put, w);
    var u := Drop(t, w, c, target);
    SameListsPersist(put, u);
    NoneMoves(put, u, w);
    MovesAfterMoves(t, put, u, w);
    SameChildren(put, u, LandingColumn(t, c, target));
  }

  lemma SameChildren(t: Tree, u: Tree, c: Column)
    requires SameLists(t, u) && c in t.columns
    ensures c in u.columns && u.columns[c].children == t.columns[c].children
    ensures t.columns[c].workspace in t.workspaces ==> (Attached(u, c) <==> Attached(t, c))
  {
  }

  /**
   * A drop keeps the tree in order if and only if there is a target, or the
   * destination still hangs in its workspace.
   */
  lemma DropKeepsOrder(t: Tree, w: Window, c: Column, target: Window?)
    requires Inv(t) && CanDrop(t, w, c, target)
    ensures Inv(Drop(t, w, c, target)) <==> target != null || Attached(t, c)
  {
    var put := DropInColumn(t, w, c, target);
    DropKeeps(t, w, c, target);
    DropDefined(t, w, c, target);
    DropInColumnMeans(t, w, c, target);
    if target != null || Attached(t, c) {
      hide Inv, DropInColumn;
      ShowKeeps(put, w);
    } else {
      ShowFocuses(put, w);
      DropLeavesUnhung(put, Drop(t, w, c, target), c, w);
    }
  }

  lemma DropLeavesUnhung(t: Tree, u: Tree, c: Column, w: Window)
    requires SameLists(t, u) && c in t.columns && t.columns[c].workspace in t.workspaces
    requires t.columns[c].children != [] && !Attached(t, c)
    ensures !Inv(u)
  {
    SameChildren(t, u, c);
    assert !ChildrenOk(u, c);
  }

  /** The window ends up in the column it was dropped on if and only if the target, if any, is still its child. */
  lemma DropLandsInDestination(t: Tree, w: Window, c: Column, target: Window?)
    requires Inv(t) && CanDrop(t, w, c, target)
    ensures w in Drop(t, w, c, target).windows
    ensures Drop(t, w, c, target).windows[w].column == c <==> target == null || target in t.columns[c].children
  {
    DropLands(t, w, c, target);
    if target != null && target in t.columns[c].children {
      assert ChildrenOk(t, c);
    }
  }

  /**
   * When the preview before child g was arranged for the children the column
   * still has, dropping the window makes it child g, and moves no other child
   * past another.
   */
  lemma DropsAtPreview(t: Tree, w: Window, c: Column, g: nat)
    requires Inv(t) && IsPlaced(t, w) && IsFloating(t, w) && c in t.columns && t.columns[c].workspace in t.workspaces
    requires g <= |t.columns[c].children|
    ensures var children := t.columns[c].children;
            var target := if g > 0 then children[g - 1] else null;
            && CanDrop(t, w, c, target) && c in Drop(t, w, c, target).columns
            && Drop(t, w, c, target).columns[c].children == children[..g] + [w] + children[g..]
  {
    assert ChildrenOk(t, c);
    DropIndexIs(t.columns[c].children, g);
    var target := if g > 0 then t.columns[c].children[g - 1] else null;
    assert CanDrop(t, w, c, target);
    hide Inv, Drop, OnlyMoves, DropIndex, ChildrenOk, Attached;
    DropLands(t, w, c, target);
  }

  lemma DropIndexIs(children: seq<Window>, g: nat)
    requires NoDuplicates(children) && g <= |children|
    ensures DropIndex(children, if g > 0 then children[g - 1] else null) == g
  {
    if g > 0 {
      IndexIs(children, g - 1);
    }
  }

  // ---------------------------------------------------------------------
  // src/desktop/xdg_shell.c
  // ---------------------------------------------------------------------

  /** A new window goes behind the active tiling window, or into a new first column if there is none. */
  function PutBehindFocus(t: Tree, s: Workspace, w: Window, output: Option<nat>, spare: Column): (u: Tree)
    requires Inv(t) && Detached(t, w) && !t.windows[w].dead && s in t.listed && output.Some? && spare !in t.columns
    ensures Inv(u) && OnlyMoves(t, u, w) && ColumnsPersist(t, u) && u.windows.Keys == t.windows.Keys
    ensures u.windows[w].workspace == s && u.windows[w].column != null
  {
    ActiveColumnIs(t, s);
    hide Inv, Attached, ColumnsOk, Calm, OnlyMoves, PutBehindActive;
    var c := t.workspaces[s].activeColumn;
    if c != null && t.columns[c].activeChild != null then
      var u := PutBehindActive(t, c, w);
      CalmMeans(t, u, w);
      u
    else PutInNewColumn(t, s, w, output, spare)
  }

  lemma ActiveColumnIs(t: Tree, s: Workspace)
    requires Inv(t) && s in t.listed
    ensures s in t.workspaces && ColumnsOk(t, s)
    ensures var c := t.workspaces[s].activeColumn; c != null ==> Attached(t, c) && t.columns[c].workspace == s
  {
    assert ColumnsOk(t, s);
  }

  lemma CreatedMoves(t: Tree, u: Tree, w: Window)
    requires w !in t.windows && OnlyMoves(CreateWindow(t, w), u, w) && ColumnsPersist(CreateWindow(t, w), u)
    ensures OnlyMoves(t, u, w) && ColumnsPersist(t, u)
  {
  }

  /** The assertions of the map handler, and the active output that a floating window is sized for. */
  ghost predicate CanMap(t: Tree, w: Window, floating: bool, output: Option<nat>) {
    && Inv(t) && w !in t.windows && t.activeWorkspace != null && output.Some?
    && (floating ==> t.activeOutput.Some?)
  }

  /** A new window, floating in the active workspace or tiled behind its focus. */
  function MapUnfocused(t: Tree, w: Window, floating: bool, output: Option<nat>, spare: Column): (u: Tree)
    requires CanMap(t, w, floating, output) && spare !in t.columns
    ensures Inv(u) && OnlyMoves(t, u, w) && ColumnsPersist(t, u) && IsPlaced(u, w)
    ensures u.windows[w].workspace == t.activeWorkspace
    ensures u.windows[w].column == null <==> floating
  {
    hide Inv, OnlyMoves, Calm, ColumnsOk;
    ActiveIsListed(t);
    CreateWindowKeeps(t, w);
    var made := CreateWindow(t, w);
    if floating then
      var u := PutFloating(made, t.activeWorkspace, w);
      CalmMeans(made, u, w);
      CreatedMoves(t, u, w);
      u
    else
      var u := PutBehindFocus(made, t.activeWorkspace, w, output, spare);
      CreatedMoves(t, u, w);
      u
  }

  /** The surface is mapped: a new window in the active workspace, which may take the focus. */
  function Map(t: Tree, w: Window, floating: bool, output: Option<nat>, focus: bool, spare: Column): (u: Tree)
    requires CanMap(t, w, floating, output) && spare !in t.columns
    ensures Inv(u) && OnlyMoves(t, u, w) && ColumnsPersist(t, u) && IsPlaced(u, w)
    ensures u.windows[w].workspace == t.activeWorkspace
    ensures u.windows[w].column == null <==> floating
  {
    hide Inv, OnlyMoves, ColumnsPersist, OutputStays, Remembers, MapUnfocused, FocusWindow, SameLists, CanMap;
    var placed := MapUnfocused(t, w, floating, output, spare);
    if focus then
      var u := FocusWindow(placed, w);
      SameListsPersist(placed, u);
      NoneMoves(placed, u, w);
      MovesAfterMoves(t, placed, u, w);
      PersistAfterPersist(t, placed, u);
      u
    else placed
  }

  lemma KilledStays(t: Tree, w: Window)
    requires Inv(t) && IsPlaced(t, w)
    ensures var killed := Kill(TakeOut(t, w), w);
            && Inv(killed) && OnlyMoves(t, killed, w) && t.windows[w].workspace in killed.workspaces
            && (t.windows[w].column != null ==> CanConsider(killed, t.windows[w].column))
  {
    Pointers(t, w);
    var out := TakeOut(t, w);
    KillKeeps(out, w);
    hide Inv, OnlyMoves, Remembers, OutputStays, ColumnsPersist, Calm, TakeOut, ColumnsOk;
    CalmMeans(t, out, w);
    KillMoves(out, w);
    MovesAfterMoves(t, out, Kill(out, w), w);
    PersistRemembers(t, out);
    KnownStays(t, out, t.windows[w].workspace);
    if t.windows[w].column != null {
      StaysAttached(t, out, t.windows[w].column);
    }
  }

  lemma KillMoves(t: Tree, w: Window)
    requires w in t.windows
    ensures OnlyMoves(t, Kill(t, w), w)
    ensures forall c :: Attached(t, c) ==> Attached(Kill(t, w), c)
  {
  }

  lemma UnmapMoves(t: Tree, w: Window)
    requires Inv(t) && IsPlaced(t, w)
    requires var killed := Kill(TakeOut(t, w), w);
             && Inv(killed) && OnlyMoves(t, killed, w) && t.windows[w].workspace in killed.workspaces
             && (t.windows[w].column != null ==> CanConsider(killed, t.windows[w].column))
    ensures var u := CleanUp(Kill(TakeOut(t, w), w), t.windows[w].column, t.windows[w].workspace);
            OnlyMoves(t, u, w) && Detached(u, w) && u.windows[w].dead
  {
    hide Inv, OnlyMoves, Remembers, OutputStays, CleanUp, TakeOut;
    var killed := Kill(TakeOut(t, w), w);
    var u := CleanUp(killed, t.windows[w].column, t.windows[w].workspace);
    NoneMoves(killed, u, w);
    MovesAfterMoves(t, killed, u, w);
  }

  /** The surface is unmapped: the window is detached and dies, and its column and workspace may go with it. */
  function Unmap(t: Tree, w: Window): (u: Tree)
    requires Inv(t) && IsPlaced(t, w)
    ensures Inv(u) && OnlyMoves(t, u, w) && Detached(u, w) && u.windows[w].dead
  {
    KilledStays(t, w);
    UnmapMoves(t, w);
    hide *;
    CleanUp(Kill(TakeOut(t, w), w), t.windows[w].column, t.windows[w].workspace)
  }
}
