/**
 * The pointer drag that may be under way while the window tree changes,
 * src/input/seatop_move.c. A drag remembers the column it hovers over, and only
 * some of the commands take that back when they rearrange the tree.
 */
module TreeDrags {
  import opened Seqs
  import opened Tree
  import opened TreeInvariant
  import opened TreeSteps
  import opened TreeCommands

  // ---------------------------------------------------------------------
  // What a move leaves of the columns
  // ---------------------------------------------------------------------

  lemma MoveToColumnLeaves(t: Tree, w: Window, c: Column, direction: Option<Direction>, d: Column)
    requires Inv(t) && IsPlaced(t, w) && IsTiled(t, w) && Attached(t, c) && t.windows[w].column != c
    requires d in t.columns
    ensures var u := MoveToColumn(t, w, c, direction);
            && d in u.columns && u.workspaces == t.workspaces
            && (d == t.windows[w].column ==> u.columns[d].children == Remove(t.columns[d].children, w))
            && (d != t.windows[w].column && d != c ==> u.columns[d] == t.columns[d])
            && (d == c ==> u.columns[d].children != [] && u.columns[d].workspace == t.columns[d].workspace)
  {
    MoveToColumnStays(t, w, c);
    TiledPointers(t, w);
    hide Inv, OnlyMoves, ColumnsPersist, Attached, Remove, Insert, PutBehindActive, TakeOut;
    hide OutputStays, Remembers;
    var out, u := TakeOut(t, w), MoveToColumn(t, w, c, direction);
    assert u == if direction == Some(Down) then PutInColumn(out, c, w, 0)
                else if direction == Some(Up) then PutInColumn(out, c, w, |t.columns[c].children|)
                else PutBehindActive(out, c, w);
    hide MoveToColumn, PutInColumn;
  }

  /** The columns hang where they did, and only the window's old column may have lost a child. */
  ghost predicate Leaves(t: Tree, u: Tree, w: Window, d: Column)
    requires w in t.windows && d in t.columns
  {
    && d in u.columns && (Attached(u, d) <==> Attached(t, d))
    && (d == t.windows[w].column ==> u.columns[d].children == Remove(t.columns[d].children, w))
    && (d != t.windows[w].column ==>
          u.columns[d].children == t.columns[d].children || (u.columns[d].children != [] && Attached(t, d)))
  }

  lemma ToColumnLeaves(t: Tree, w: Window, c: Column, direction: Option<Direction>, d: Column)
    requires Inv(t) && IsPlaced(t, w) && IsTiled(t, w) && Attached(t, c) && t.windows[w].column != c
    requires d in t.columns && t.columns[d].workspace in t.workspaces
    ensures Leaves(t, MoveToColumn(t, w, c, direction), w, d)
  {
    MoveToColumnLeaves(t, w, c, direction, d);
    PersistRemembers(t, MoveToColumn(t, w, c, direction));
    hide Inv, MoveToColumn, Remove, ColumnsPersist, OnlyMoves;
  }

  lemma ToNewColumnLeaves(t: Tree, w: Window, left: bool, spare: Column, d: Column)
    requires Inv(t) && IsPlaced(t, w) && IsTiled(t, w) && spare !in t.columns && Neighbour(t, w, left) == null
    requires d in t.columns && t.columns[d].workspace in t.workspaces
    ensures Leaves(t, MoveSideways(t, w, left, spare), w, d)
  {
    Pointers(t, w);
    var s := t.windows[w].workspace;
    var direction := Some(if left then Left else Right);
    var i := if left then 0 else |t.workspaces[s].columns|;
    var made := NewColumn(t, s, t.windows[w].output, i, spare);
    assert MoveSideways(t, w, left, spare) == MoveToColumn(made, w, spare, direction);
    hide Inv, MoveToColumn, ColumnsPersist, OnlyMoves, NewColumn, Remove, Insert, MoveSideways, OutputStays, Neighbour;
    hide Attached, Leaves;
    NewColumnLeaves(t, s, t.windows[w].output, i, spare, d);
    ToColumnLeaves(made, w, spare, direction, d);
    LeavesLikewise(t, made, MoveToColumn(made, w, spare, direction), w, d);
  }

  lemma LeavesLikewise(t: Tree, made: Tree, u: Tree, w: Window, d: Column)
    requires w in t.windows && d in t.columns && made.windows == t.windows
    requires d in made.columns && made.columns[d] == t.columns[d] && (Attached(made, d) <==> Attached(t, d))
    requires Leaves(made, u, w, d)
    ensures Leaves(t, u, w, d)
  {
    hide Attached, Remove;
  }

  lemma NewColumnLeaves(t: Tree, s: Workspace, output: Option<nat>, i: nat, c: Column, d: Column)
    requires Inv(t) && c !in t.columns && s in t.listed && s in t.workspaces && output.Some?
    requires i <= |t.workspaces[s].columns| && d in t.columns && t.columns[d].workspace in t.workspaces
    ensures var u := NewColumn(t, s, output, i, c);
            && d in u.columns && u.columns[d] == t.columns[d] && u.columns[d].workspace in u.workspaces
            && (Attached(u, d) <==> Attached(t, d))
  {
    InsertMembers(t.workspaces[s].columns, i, c, d);
    hide Inv, NewColumn, Insert, ColumnsPersist, OutputStays;
  }

  lemma SidewaysLeaves(t: Tree, w: Window, left: bool, spare: Column, d: Column)
    requires Inv(t) && IsPlaced(t, w) && IsTiled(t, w) && spare !in t.columns
    requires d in t.columns && t.columns[d].workspace in t.workspaces
    ensures Leaves(t, MoveSideways(t, w, left, spare), w, d)
  {
    Pointers(t, w);
    var next := Neighbour(t, w, left);
    if next == null {
      ToNewColumnLeaves(t, w, left, spare, d);
    } else {
      InWorkspace(t, t.windows[w].workspace, next);
      hide Inv, MoveToColumn, NewColumn, Neighbour, Leaves;
      ToColumnLeaves(t, w, next, Some(if left then Left else Right), d);
    }
  }

  /** Whether the column is empty, and whether it hangs in its workspace: what considering it depends on. */
  ghost predicate Empties(t: Tree, u: Tree, d: Column, empty: bool)
    requires d in t.columns
  {
    && d in u.columns && (u.columns[d].children == [] <==> empty)
    && (empty ==> (Attached(u, d) <==> Attached(t, d)))
  }

  lemma SidewaysEmpties(t: Tree, u: Tree, w: Window, d: Column)
    requires Inv(t) && IsPlaced(t, w) && IsTiled(t, w) && d in t.columns && Leaves(t, u, w, d)
    ensures d != t.windows[w].column && u.columns[d].children != t.columns[d].children ==> Attached(t, d)
    ensures d == t.windows[w].column || u.columns[d].children == t.columns[d].children ==>
              Empties(t, u, d, t.columns[d].children == [] || (d == t.windows[w].column && t.columns[d].children == [w]))
  {
    TiledPointers(t, w);
    hide Inv, Attached;
  }

  lemma PastLeaves(t: Tree, w: Window, i: nat, j: nat, d: Column)
    requires Inv(t) && IsPlaced(t, w) && t.windows[w].column in t.columns && d in t.columns
    requires var children := t.columns[t.windows[w].column].children;
             i < |children| && j < |children| && children[i] == w && (j == i + 1 || i == j + 1)
    ensures Empties(t, MovePast(t, w, i, j), d, t.columns[d].children == [])
  {
    var c := t.windows[w].column;
    PastStays(t, w, i, j);
    hide Inv, Attached, TakeOut, PutInColumn, Calm;
    var k, out := IndexPast(t, w, i, j), TakeOut(t, w);
    assert MovePast(t, w, i, j) == PutInColumn(out, c, w, k);
    hide MovePast, IndexPast;
    assert d != c ==> PutInColumn(out, c, w, k).columns[d] == t.columns[d];
    AttachedAlike(t, PutInColumn(out, c, w, k), d);
  }

  lemma AttachedAlike(t: Tree, u: Tree, d: Column)
    requires d in t.columns && d in u.columns && u.columns[d].workspace == t.columns[d].workspace
    requires u.workspaces == t.workspaces
    ensures Attached(u, d) <==> Attached(t, d)
  {
  }

  lemma DiscardLeaves(t: Tree, c: Column, d: Column)
    requires Inv(t) && CanConsider(t, c) && d in t.columns && t.columns[d].workspace in t.workspaces
    ensures var u := Discard(t, c);
            d in u.columns && (Attached(u, d) <==> Attached(t, d) && !(d == c && t.columns[c].children == []))
  {
    if t.columns[c].children == [] {
      var s := t.columns[c].workspace;
      assert ColumnsOk(t, s);
      RemoveMembers(t.workspaces[s].columns, c, d);
    }
  }

  lemma SidewaysConsiders(t: Tree, w: Window, left: bool, spare: Column, d: Column)
    requires Inv(t) && IsPlaced(t, w) && IsTiled(t, w) && spare !in t.columns
    requires d in t.columns && t.columns[d].workspace in t.workspaces
    ensures var m := MoveSideways(t, w, left, spare);
            && d in m.columns && (CanConsider(m, d) <==> CanConsider(t, d))
            && (d == t.windows[w].column ==> (m.columns[d].children == [] <==> t.columns[d].children == [w]))
  {
    TiledPointers(t, w);
    SidewaysLeaves(t, w, left, spare, d);
    SidewaysEmpties(t, MoveSideways(t, w, left, spare), w, d);
    hide Inv, Attached, MoveSideways, Remove;
  }

  lemma PastConsiders(t: Tree, w: Window, i: nat, j: nat, d: Column)
    requires Inv(t) && IsPlaced(t, w) && t.windows[w].column in t.columns
    requires d in t.columns && t.columns[d].workspace in t.workspaces
    requires var children := t.columns[t.windows[w].column].children;
             i < |children| && j < |children| && children[i] == w && (j == i + 1 || i == j + 1)
    ensures var m := MovePast(t, w, i, j);
            && d in m.columns && (CanConsider(m, d) <==> CanConsider(t, d))
            && (d == t.windows[w].column ==> m.columns[d].children != [] && t.columns[d].children != [w])
  {
    PastLeaves(t, w, i, j, d);
    hide Inv, Attached, MovePast;
  }

  lemma WithinConsiders(t: Tree, w: Window, direction: Direction, spare: Column, d: Column)
    requires Inv(t) && IsPlaced(t, w) && IsTiled(t, w) && spare !in t.columns && CanGo(t, w, direction)
    requires d in t.columns && t.columns[d].workspace in t.workspaces
    ensures var m := MoveWithin(t, w, direction, spare).0;
            && d in m.columns && (CanConsider(m, d) <==> CanConsider(t, d))
            && (d == t.windows[w].column ==> (m.columns[d].children == [] <==> t.columns[d].children == [w]))
  {
    Pointers(t, w);
    hide Inv, CanConsider, MoveSideways, MovePast, ColumnsPersist, OnlyMoves, Attached, Neighbour;
    var children := t.columns[t.windows[w].column].children;
    if direction == Left || direction == Right {
      SidewaysConsiders(t, w, direction == Left, spare, d);
    } else {
      var i := IndexOf(children, w);
      PastConsiders(t, w, i, if direction == Up then i - 1 else i + 1, d);
    }
  }

  lemma BeyondConsiders(t: Tree, w: Window, direction: Direction, d: Column)
    requires Inv(t) && IsPlaced(t, w) && IsTiled(t, w)
    requires t.windows[w].workspace in t.workspaces && t.workspaces[t.windows[w].workspace].activeColumn != null
    requires d in t.columns && t.columns[d].workspace in t.workspaces
    ensures var m, own := MoveBeyond(t, w, direction), t.windows[w].column;
            && d in m.columns && (CanConsider(m, d) <==> CanConsider(t, d))
            && (d == own ==> (m.columns[d].children == [] <==>
                                t.columns[d].children == [w] && EdgeColumn(t, w, direction) != own))
  {
    TiledPointers(t, w);
    var c := EdgeColumn(t, w, direction);
    InWorkspace(t, t.windows[w].workspace, c);
    hide Inv, Attached, MoveToColumn, Remove, EdgeColumn, OnlyMoves, ColumnsPersist;
    if c == t.windows[w].column {
      StaysHere(t, w, c, Some(direction));
    } else {
      ToColumnLeaves(t, w, c, Some(direction), d);
      SidewaysEmpties(t, MoveToColumn(t, w, c, Some(direction)), w, d);
    }
  }

  lemma StaysHere(t: Tree, w: Window, c: Column, direction: Option<Direction>)
    requires Inv(t) && IsPlaced(t, w) && Attached(t, c) && t.windows[w].column == c
    ensures MoveToColumn(t, w, c, direction) == t
  {
    hide Inv;
  }

  /** The window comes to another column, or past a sibling. */
  predicate Departs(t: Tree, w: Window, h: Heading)
    requires Inv(t) && IsPlaced(t, w) && IsTiled(t, w) && CanCross(t, w, h) && Goes(t, w, h)
  {
    Pointers(t, w);
    CanGo(t, w, h.direction) || EdgeColumn(t, w, h.direction) != t.windows[w].column
  }

  lemma MoveConsiders(t: Tree, w: Window, h: Heading, spare: Column, d: Column)
    requires Inv(t) && IsPlaced(t, w) && IsTiled(t, w) && spare !in t.columns && CanCross(t, w, h) && Goes(t, w, h)
    requires d in t.columns && t.columns[d].workspace in t.workspaces
    ensures var m := MoveInDirection(t, w, h, spare).0;
            && d in m.columns && (CanConsider(m, d) <==> CanConsider(t, d))
            && (d == t.windows[w].column ==>
                  (m.columns[d].children == [] <==> t.columns[d].children == [w] && Departs(t, w, h)))
  {
    Pointers(t, w);
    hide Inv, CanConsider, ColumnsPersist, OnlyMoves, Attached, MoveWithin, MoveBeyond, CanGo, EdgeColumn;
    if CanGo(t, w, h.direction) {
      WithinConsiders(t, w, h.direction, spare, d);
    } else {
      BeyondConsiders(t, w, h.direction, d);
    }
  }

  /**
   * After a move in a direction a column can be considered for destruction if
   * and only if it could before, and is not one that just lost its only child.
   */
  lemma MoveLeaves(t: Tree, w: Window, h: Heading, spare: Column, d: Column)
    requires Inv(t) && IsPlaced(t, w) && IsTiled(t, w) && spare !in t.columns && CanCross(t, w, h) && Goes(t, w, h)
    requires d in t.columns && t.columns[d].workspace in t.workspaces
    ensures CanConsider(Move(t, w, h, spare), d)
            <==> CanConsider(t, d) && !(d == t.windows[w].column && t.columns[d].children == [w] && Departs(t, w, h))
  {
    Pointers(t, w);
    var c := t.windows[w].column;
    hide Inv, MoveInDirection, Goes, Departs, Discard, FocusWindow, OnlyMoves, Attached, ColumnsPersist, SameLists;
    hide CanCross, Remembers, OutputStays;
    var m := MoveInDirection(t, w, h, spare).0;
    MoveConsiders(t, w, h, spare, d);
    MovedMoves(t, m, w);
    KnownColumn(t, m, d);
    var v := Discard(m, c);
    DiscardLeaves(m, c, d);
    KnownColumn(t, v, d);
    SameChildren(v, FocusWindow(v, w), d);
    DiscardKeepsChildren(m, c, d);
  }

  lemma KnownColumn(t: Tree, u: Tree, d: Column)
    requires d in t.columns && t.columns[d].workspace in t.workspaces && Remembers(t, u)
    ensures d in u.columns && u.columns[d].workspace in u.workspaces
  {
  }

  lemma DiscardKeepsChildren(t: Tree, c: Column, d: Column)
    requires Inv(t) && CanConsider(t, c) && d in t.columns
    ensures Discard(t, c).columns == t.columns
  {
    hide Inv, Discard;
  }

  lemma SendEmpties(t: Tree, w: Window, s: Workspace, spare: Column)
    requires Inv(t) && IsPlaced(t, w) && IsTiled(t, w) && s in t.listed && spare !in t.columns
    requires t.windows[w].workspace != s && t.columns[t.windows[w].column].children == [w]
    ensures var c, u := t.windows[w].column, MoveToWorkspace(t, w, s, spare);
            c in u.columns && u.columns[c].children == [] && Attached(u, c)
  {
    Pointers(t, w);
    var c := t.windows[w].column;
    assert ColumnsOk(t, s);
    var target := TargetColumn(t, s, t.windows[w].output);
    assert Remove([w], w) == [];
    StaysAttached(t, MoveToWorkspace(t, w, s, spare), c);
    if target == null {
      var made := NewColumn(t, s, t.windows[w].output, 0, spare);
      hide Inv, MoveToColumn, ColumnsPersist, NewColumn, Attached, Remove, TargetColumn, OnlyMoves, Calm, ColumnsOk;
      MoveToColumnLeaves(made, w, spare, None, c);
    } else {
      InWorkspace(t, s, target);
      hide Inv, MoveToColumn, ColumnsPersist, Attached, Remove, TargetColumn, OnlyMoves, Calm, ColumnsOk;
      MoveToColumnLeaves(t, w, target, None, c);
    }
  }

  lemma ConsideredUnhung(t: Tree, s: Workspace, c: Column)
    requires s in t.workspaces && !Attached(t, c)
    ensures !Attached(ConsiderDestroyWorkspace(t, s), c)
  {
  }

  /** Sending the only child of a column to another workspace takes the column out of its own. */
  lemma SendUnlinks(t: Tree, w: Window, s: Workspace, spare: Column)
    requires Inv(t) && IsPlaced(t, w) && IsTiled(t, w) && s in t.listed && spare !in t.columns
    requires t.windows[w].workspace != s && t.columns[t.windows[w].column].children == [w]
    ensures var c, u := t.windows[w].column, SendToWorkspace(t, w, s, spare);
            c in u.columns && u.columns[c].children == [] && !Attached(u, c)
  {
    Pointers(t, w);
    SendEmpties(t, w, s, spare);
    var c, from := t.windows[w].column, t.windows[w].workspace;
    var moved := MoveToWorkspace(t, w, s, spare);
    var focused := Focus(moved, s, w);
    SameChildren(moved, focused, c);
    DiscardLeaves(focused, c, c);
    var v := Discard(focused, c);
    hide Inv, MoveToWorkspace, Focus, Discard, Attached, OnlyMoves, ColumnsPersist, ConsiderDestroyWorkspace;
    ConsideredUnhung(v, from, c);
    assert SendToWorkspace(t, w, s, spare) == ConsiderDestroyWorkspace(v, from);
  }

  // ---------------------------------------------------------------------
  // The drag
  // ---------------------------------------------------------------------

  /** A drag past its threshold: the floating window, and the column whose preview it is over. */
  datatype Drag = Drag(window: Window, destination: Column?)

  /**
   * The tree, the drag under way, and the columns that show a preview, each with
   * the child that its preview was last arranged behind.
   */
  datatype World = World(tree: Tree, drag: Option<Drag>, previews: map<Column, Window?>)

  const BEGIN: World := World(EMPTY, None, map[])

  function Destination(x: World): Column? {
    if x.drag.None? then null else x.drag.value.destination
  }

  function Target(x: World, c: Column): Window? {
    if c in x.previews then x.previews[c] else null
  }

  /** The dragged window floats, and its destination was made in some workspace; it need not hang there any more. */
  ghost predicate DragOk(x: World) {
    x.drag.Some? ==>
      var Drag(w, c) := x.drag.value;
      && IsPlaced(x.tree, w) && IsFloating(x.tree, w)
      && (c != null ==> c in x.tree.columns && x.tree.columns[c].workspace in x.tree.workspaces)
  }

  ghost predicate InOrder(x: World) { Inv(x.tree) && DragOk(x) }

  /** What column_consider_destroy asserts of the column that the drag leaves. */
  ghost predicate CanLeave(x: World) {
    var c := Destination(x); c != null ==> CanConsider(x.tree, c)
  }

  lemma DragStays(x: World, u: Tree, w: Window)
    requires InOrder(x) && Inv(u) && OnlyMoves(x.tree, u, w)
    requires x.drag.Some? && x.drag.value.window == w ==> IsPlaced(u, w) && IsFloating(u, w)
    ensures InOrder(x.(tree := u))
  {
    hide Inv, OutputStays;
  }

  lemma Unlinked(t: Tree)
    ensures OnlyUnlinks(t, t)
  {
  }

  /** The preview goes, and its column with it if it is empty. */
  function LeaveDestination(x: World): (y: World)
    requires InOrder(x) && CanLeave(x)
    ensures InOrder(y) && OnlyUnlinks(x.tree, y.tree) && Destination(y) == null
    ensures y.drag.Some? == x.drag.Some? && (x.drag.Some? ==> y.drag.value.window == x.drag.value.window)
  {
    var c := Destination(x);
    hide Inv, OutputStays, Discard;
    Unlinked(x.tree);
    if c == null then x
    else World(Discard(x.tree, c), Some(x.drag.value.(destination := null)), x.previews - {c})
  }

  /** window_end_mouse_operation: every drag loses its destination, and the window's own drag ends. */
  function EndMouseOperation(x: World, w: Window): (y: World)
    requires InOrder(x) && CanLeave(x)
    ensures InOrder(y) && OnlyUnlinks(x.tree, y.tree) && Destination(y) == null
    ensures y.drag.Some? ==> x.drag.Some? && y.drag.value.window == x.drag.value.window && y.drag.value.window != w
  {
    var y := LeaveDestination(x);
    if y.drag.Some? && y.drag.value.window == w then y.(drag := None) else y
  }
}
