/**
 * Where the commands put a window, in terms of the places in the lists: which
 * column, and which child there.
 */
module TreePlaces {
  import opened Seqs
  import opened Tree
  import opened TreeInvariant
  import opened TreeSteps
  import opened TreeCommands
  import opened TreeDrags
  import opened TreeTheorems

  // ---------------------------------------------------------------------
  // Places
  // ---------------------------------------------------------------------

  /** The column at j is on this output. */
  ghost predicate On(t: Tree, columns: seq<Column>, output: Option<nat>, j: nat)
    requires j < |columns|
  {
    columns[j] in t.columns && t.columns[columns[j]].output == output
  }

  /** k is the nearest place before i, or behind it, of a column on the output. */
  ghost predicate NextTo(t: Tree, columns: seq<Column>, output: Option<nat>, i: nat, left: bool, k: nat) {
    && k < |columns| && On(t, columns, output, k)
    && if left then k < i && forall j :: k < j < i && j < |columns| ==> !On(t, columns, output, j)
       else i < k && forall j :: i < j < k ==> !On(t, columns, output, j)
  }

  /** There is no column on the output before i, or behind it. */
  ghost predicate NoneBeyond(t: Tree, columns: seq<Column>, output: Option<nat>, i: nat, left: bool) {
    forall j :: 0 <= j < |columns| && (if left then j < i else i < j) ==> !On(t, columns, output, j)
  }

  /** The window is now child i of the column, whose other children are as they were. */
  ghost predicate Joins(t: Tree, u: Tree, w: Window, c: Column, i: nat) {
    && w in u.windows && u.windows[w].column == c && c in u.columns && c in t.columns
    && i <= |t.columns[c].children|
    && u.columns[c].children == t.columns[c].children[..i] + [w] + t.columns[c].children[i..]
  }

  /** Right behind the active child, or last if there is none. */
  ghost predicate BehindActiveChild(t: Tree, c: Column, i: nat) {
    && c in t.columns && i <= |t.columns[c].children|
    && if t.columns[c].activeChild == null then i == |t.columns[c].children|
       else i > 0 && t.columns[c].children[i - 1] == t.columns[c].activeChild
  }

  /** The window's column is at place i of its workspace. */
  ghost predicate ColumnAt(t: Tree, w: Window, i: nat) {
    && w in t.windows && t.windows[w].workspace in t.workspaces && t.windows[w].column != null
    && i < |t.workspaces[t.windows[w].workspace].columns|
    && t.workspaces[t.windows[w].workspace].columns[i] == t.windows[w].column
  }

  lemma {:induction false} BeforeIsNearest(t: Tree, columns: seq<Column>, output: Option<nat>, i: nat, k: nat)
    requires i <= |columns| && (forall c :: c in columns ==> c in t.columns) && NextTo(t, columns, output, i, true, k)
    ensures ColumnBefore(t, columns, output, i) == columns[k]
  {
    if k < i - 1 {
      assert !On(t, columns, output, i - 1);
      BeforeIsNearest(t, columns, output, i - 1, k);
    }
  }

  lemma {:induction false} BehindIsNearest(t: Tree, columns: seq<Column>, output: Option<nat>, i: nat, k: nat)
    requires i < |columns| && (forall c :: c in columns ==> c in t.columns) && NextTo(t, columns, output, i, false, k)
    ensures ColumnBehind(t, columns, output, i + 1) == columns[k]
    decreases |columns| - i
  {
    if i + 1 < k {
      assert !On(t, columns, output, i + 1);
      BehindIsNearest(t, columns, output, i + 1, k);
    }
  }

  lemma {:induction false} FirstIsFirst(t: Tree, columns: seq<Column>, output: Option<nat>, k: nat)
    requires (forall c :: c in columns ==> c in t.columns) && k < |columns| && On(t, columns, output, k)
    requires forall j :: 0 <= j < k ==> !On(t, columns, output, j)
    ensures FirstColumnOn(t, columns, output) == columns[k]
  {
    if k > 0 {
      assert !On(t, columns, output, 0);
      forall j | 0 <= j < k - 1
        ensures !On(t, columns[1..], output, j)
      {
        assert !On(t, columns, output, j + 1);
      }
      FirstIsFirst(t, columns[1..], output, k - 1);
    }
  }

  /** On either side there is a nearest column, or none at all. */
  lemma NextOrNone(t: Tree, columns: seq<Column>, output: Option<nat>, i: nat, left: bool) returns (k: int)
    requires i < |columns|
    ensures if k < 0 then NoneBeyond(t, columns, output, i, left) else NextTo(t, columns, output, i, left, k)
  {
    k := if left then i - 1 else i + 1;
    while 0 <= k < |columns| && !On(t, columns, output, k)
      invariant if left then -1 <= k < i else i < k <= |columns|
      invariant forall j :: 0 <= j < |columns| && (if left then k < j < i else i < j < k) ==> !On(t, columns, output, j)
      decreases if left then k + 1 else |columns| - k
    {
      k := if left then k - 1 else k + 1;
    }
    if k == |columns| {
      k := -1;
    }
  }

  // ---------------------------------------------------------------------
  // move left, move right
  // ---------------------------------------------------------------------

  lemma NeighbourMeans(t: Tree, w: Window, left: bool, i: nat)
    requires Inv(t) && IsPlaced(t, w) && IsTiled(t, w) && ColumnAt(t, w, i)
    ensures var columns, output := t.workspaces[t.windows[w].workspace].columns, t.windows[w].output;
            && (forall c :: c in columns ==> c in t.columns)
            && Neighbour(t, w, left) ==
                 if left then ColumnBefore(t, columns, output, i) else ColumnBehind(t, columns, output, i + 1)
  {
    Pointers(t, w);
    IndexIs(t.workspaces[t.windows[w].workspace].columns, i);
    hide Inv, ColumnBefore, ColumnBehind;
  }

  lemma NeighbourIsNext(t: Tree, w: Window, left: bool, i: nat, k: nat)
    requires Inv(t) && IsPlaced(t, w) && IsTiled(t, w) && ColumnAt(t, w, i)
    requires NextTo(t, t.workspaces[t.windows[w].workspace].columns, t.windows[w].output, i, left, k)
    ensures Neighbour(t, w, left) == t.workspaces[t.windows[w].workspace].columns[k]
  {
    NeighbourMeans(t, w, left, i);
    hide Inv, Neighbour, ColumnBefore, ColumnBehind;
    var columns := t.workspaces[t.windows[w].workspace].columns;
    if left {
      BeforeIsNearest(t, columns, t.windows[w].output, i, k);
    } else {
      BehindIsNearest(t, columns, t.windows[w].output, i, k);
    }
  }

  lemma NeighbourIsNone(t: Tree, w: Window, left: bool, i: nat)
    requires Inv(t) && IsPlaced(t, w) && IsTiled(t, w) && ColumnAt(t, w, i)
    requires NoneBeyond(t, t.workspaces[t.windows[w].workspace].columns, t.windows[w].output, i, left)
    ensures Neighbour(t, w, left) == null
  {
    Pointers(t, w);
    var columns, output := t.workspaces[t.windows[w].workspace].columns, t.windows[w].output;
    IndexIs(columns, i);
    var next := Neighbour(t, w, left);
    if next != null {
      var k :| 0 <= k < |columns| && columns[k] == next && if left then k < i else i < k;
      assert On(t, columns, output, k);
    }
  }

  /** The column left behind is considered and the window focused: what that makes of the lists. */
  lemma AfterMove(moved: Tree, c: Column, w: Window, s: Workspace, d: Column)
    requires Inv(moved) && CanConsider(moved, c) && IsPlaced(Discard(moved, c), w)
    requires s in moved.workspaces && d in moved.columns
    ensures var u := FocusWindow(Discard(moved, c), w);
            && u.windows == moved.windows && d in u.columns && u.columns[d].children == moved.columns[d].children
            && s in u.workspaces
            && u.workspaces[s].columns ==
                 if moved.columns[c].children == [] && moved.columns[c].workspace == s then Remove(moved.workspaces[s].columns, c)
                 else moved.workspaces[s].columns
  {
    var v := Discard(moved, c);
    DiscardedColumns(moved, c, s);
    hide Inv, Discard, FocusWindow, OutputStays;
  }

  lemma DiscardedColumns(t: Tree, c: Column, s: Workspace)
    requires Inv(t) && CanConsider(t, c) && s in t.workspaces
    ensures var v := Discard(t, c);
            && s in v.workspaces && v.windows == t.windows && v.columns == t.columns
            && v.workspaces[s].columns ==
                 if t.columns[c].children == [] && t.columns[c].workspace == s then Remove(t.workspaces[s].columns, c)
                 else t.workspaces[s].columns
  {
  }

  lemma BehindActiveIs(t: Tree, c: Column, a: nat)
    requires Inv(t) && c in t.columns && BehindActiveChild(t, c, a)
    ensures ChildrenOk(t, c) && BehindActive(t.columns[c]) == a
  {
    assert ChildrenOk(t, c);
    hide Inv;
    if t.columns[c].activeChild != null {
      BehindActiveAt(t.columns[c], a - 1);
    }
  }

  lemma ArrivesBehind(t: Tree, w: Window, c: Column, direction: Option<Direction>, a: nat)
    requires Inv(t) && IsPlaced(t, w) && IsTiled(t, w) && Attached(t, c) && t.windows[w].column != c
    requires direction != Some(Up) && direction != Some(Down) && BehindActiveChild(t, c, a)
    ensures Joins(t, MoveToColumn(t, w, c, direction), w, c, a)
  {
    BehindActiveIs(t, c, a);
    hide Inv, MoveToColumn, OnlyMoves, ColumnsPersist, BehindActive, ChildrenOk, Attached, Insert;
    Arrives(t, w, c, direction);
    InsertedAt(t.columns[c].children, w, a);
  }

  lemma RemoveIs<T>(s: seq<T>, i: nat)
    requires NoDuplicates(s) && i < |s|
    ensures Remove(s, s[i]) == s[..i] + s[i + 1..]
  {
    IndexIs(s, i);
  }

  /**
   * A window that moves left or right joins the nearest column on that side
   * that is on its output, behind the active child there; its old column goes
   * if the window was alone in it, and the columns keep their order.
   */
  lemma MoveGoesToNext(t: Tree, w: Window, h: Heading, spare: Column, i: nat, k: nat, a: nat)
    requires Inv(t) && IsPlaced(t, w) && IsTiled(t, w) && spare !in t.columns && ColumnAt(t, w, i)
    requires h.direction == Left || h.direction == Right
    requires NextTo(t, t.workspaces[t.windows[w].workspace].columns, t.windows[w].output, i, h.direction == Left, k)
    requires BehindActiveChild(t, t.workspaces[t.windows[w].workspace].columns[k], a)
    ensures CanCross(t, w, h)
    ensures var s, c, u := t.windows[w].workspace, t.windows[w].column, Move(t, w, h, spare);
            var columns := t.workspaces[s].columns;
            && Joins(t, u, w, columns[k], a) && c in t.columns && s in u.workspaces
            && u.workspaces[s].columns == if t.columns[c].children == [w] then columns[..i] + columns[i + 1..] else columns
  {
    Pointers(t, w);
    var s, c := t.windows[w].workspace, t.windows[w].column;
    var columns := t.workspaces[s].columns;
    NeighbourIsNext(t, w, h.direction == Left, i, k);
    NextIsMove(t, w, h, spare, columns[k]);
    RemoveIs(columns, i);
    TiledPointers(t, w);
    OnlyChild(t, c, w);
    var m := MoveToColumn(t, w, columns[k], Some(h.direction));
    hide Inv, Neighbour, MoveToColumn, MoveInDirection, OnlyMoves, ColumnsPersist, Remove, Attached, ColumnsOk, CanCross;
    hide FocusWindow, Discard, OutputStays, SameLists, Remembers;
    ArrivesBehind(t, w, columns[k], Some(h.direction), a);
    MoveToColumnLeaves(t, w, columns[k], Some(h.direction), c);
    MovedMoves(t, m, w);
    AfterMove(m, c, w, s, columns[k]);
  }

  lemma NextIsMove(t: Tree, w: Window, h: Heading, spare: Column, d: Column)
    requires Inv(t) && IsPlaced(t, w) && IsTiled(t, w) && spare !in t.columns
    requires (h.direction == Left || h.direction == Right) && Neighbour(t, w, h.direction == Left) == d
    ensures CanCross(t, w, h) && Attached(t, d) && t.columns[d].workspace == t.windows[w].workspace
    ensures MoveInDirection(t, w, h, spare) == (MoveToColumn(t, w, d, Some(h.direction)), true)
  {
    Pointers(t, w);
    InWorkspace(t, t.windows[w].workspace, d);
    hide Inv, Neighbour, MoveToColumn, OnlyMoves, ColumnsPersist;
  }

  lemma OnlyChild(t: Tree, c: Column, w: Window)
    requires Inv(t) && IsChild(t, c, w)
    ensures Remove(t.columns[c].children, w) == [] <==> t.columns[c].children == [w]
  {
  }

  lemma NewColumnFirstOrLast<T>(columns: seq<T>, c: T)
    ensures Insert(columns, 0, c) == [c] + columns && Insert(columns, |columns|, c) == columns + [c]
  {
  }

  /** The first child of a new column. */
  lemma MovedToMade(t: Tree, w: Window, c: Column, direction: Option<Direction>)
    requires Inv(t) && IsPlaced(t, w) && IsTiled(t, w) && Attached(t, c) && t.windows[w].column != c
    requires t.columns[c].children == [] && t.windows[w].column in t.columns
    ensures var from, u := t.windows[w].column, MoveToColumn(t, w, c, direction);
            && w in u.windows && u.windows[w].column == c && c in u.columns && u.columns[c].children == [w]
            && u.workspaces == t.workspaces && from in u.columns
            && u.columns[from].children == Remove(t.columns[from].children, w)
  {
    assert ChildrenOk(t, c);
    MoveToColumnLeaves(t, w, c, direction, t.windows[w].column);
    Arrives(t, w, c, direction);
    hide Inv, MoveToColumn, OnlyMoves, ColumnsPersist, Remove, Attached;
  }

  lemma MadeAndMoved(t: Tree, w: Window, left: bool, spare: Column)
    requires Inv(t) && IsPlaced(t, w) && IsTiled(t, w) && spare !in t.columns && Neighbour(t, w, left) == null
    ensures var s, c, m := t.windows[w].workspace, t.windows[w].column, MoveSideways(t, w, left, spare);
            && s in t.workspaces && c in t.columns && s in m.workspaces && c in m.columns && spare in m.columns
            && m.windows[w].column == spare && m.columns[spare].children == [w]
            && m.columns[c].children == Remove(t.columns[c].children, w)
            && m.workspaces[s].columns ==
                 if left then [spare] + t.workspaces[s].columns else t.workspaces[s].columns + [spare]
  {
    Pointers(t, w);
    var s := t.windows[w].workspace;
    var direction := Some(if left then Left else Right);
    var i := if left then 0 else |t.workspaces[s].columns|;
    var made := NewColumn(t, s, t.windows[w].output, i, spare);
    assert MoveSideways(t, w, left, spare) == MoveToColumn(made, w, spare, direction);
    NewColumnFirstOrLast(t.workspaces[s].columns, spare);
    hide Inv, MoveToColumn, ColumnsPersist, OnlyMoves, NewColumn, Remove, MoveSideways, OutputStays, Neighbour, Attached;
    hide ColumnsOk, Insert;
    MovedToMade(made, w, spare, direction);
  }

  /**
   * With no column on that side and siblings in its own, the window gets a new
   * column, before all others or behind all others.
   */
  lemma MoveMakesColumn(t: Tree, w: Window, h: Heading, spare: Column, i: nat)
    requires Inv(t) && IsPlaced(t, w) && IsTiled(t, w) && spare !in t.columns && ColumnAt(t, w, i)
    requires h.direction == Left || h.direction == Right
    requires NoneBeyond(t, t.workspaces[t.windows[w].workspace].columns, t.windows[w].output, i, h.direction == Left)
    requires t.windows[w].column in t.columns && t.columns[t.windows[w].column].children != [w]
    ensures CanCross(t, w, h)
    ensures var s, u := t.windows[w].workspace, Move(t, w, h, spare);
            var columns := t.workspaces[s].columns;
            && w in u.windows && u.windows[w].column == spare && spare in u.columns && u.columns[spare].children == [w]
            && s in u.workspaces
            && u.workspaces[s].columns == if h.direction == Left then [spare] + columns else columns + [spare]
  {
    Pointers(t, w);
    var s, c, left := t.windows[w].workspace, t.windows[w].column, h.direction == Left;
    NeighbourIsNone(t, w, left, i);
    TiledPointers(t, w);
    OnlyChild(t, c, w);
    AloneOrNot(t, c, w);
    MadeAndMoved(t, w, left, spare);
    var m := MoveSideways(t, w, left, spare);
    assert MoveInDirection(t, w, h, spare) == (m, true);
    MovedMoves(t, m, w);
    hide Inv, MoveSideways, MoveInDirection, Neighbour, Remove, Discard, FocusWindow, OutputStays, Attached;
    AfterMove(m, c, w, s, spare);
  }

  /** One child is the window, or there are several. */
  lemma AloneOrNot(t: Tree, c: Column, w: Window)
    requires Inv(t) && IsChild(t, c, w)
    ensures t.columns[c].children == [w] <==> |t.columns[c].children| == 1
  {
  }

  // ---------------------------------------------------------------------
  // move up, move down
  // ---------------------------------------------------------------------

  /** The window is child j of its column. */
  ghost predicate ChildAt(t: Tree, w: Window, j: nat) {
    && w in t.windows && t.windows[w].column in t.columns
    && j < |t.columns[t.windows[w].column].children| && t.columns[t.windows[w].column].children[j] == w
  }

  /** Up or down, a window changes places with the child above or below it. */
  lemma MovePassesSibling(t: Tree, w: Window, h: Heading, spare: Column, j: nat)
    requires Inv(t) && IsPlaced(t, w) && IsTiled(t, w) && spare !in t.columns && ChildAt(t, w, j)
    requires if h.direction == Up then j > 0
             else h.direction == Down && j + 1 < |t.columns[t.windows[w].column].children|
    ensures CanCross(t, w, h)
    ensures var c, u := t.windows[w].column, Move(t, w, h, spare);
            var children, k := t.columns[c].children, if h.direction == Up then j - 1 else j + 1;
            && w in u.windows && u.windows[w].column == c && c in u.columns
            && u.columns[c].children == children[j := children[k]][k := w]
  {
    Pointers(t, w);
    var c, k := t.windows[w].column, if h.direction == Up then j - 1 else j + 1;
    ChildrenAre(t, c);
    IndexIs(t.columns[c].children, j);
    var m := MovePast(t, w, j, k);
    SiblingPassed(t, w, h, spare, j);
    PastConsiders(t, w, j, k, c);
    hide Inv, MoveInDirection, MovePast, Discard, FocusWindow, OutputStays, Attached, CanCross, Goes, Calm, CanConsider;
    MovedMoves(t, m, w);
    AfterMove(m, c, w, t.windows[w].workspace, c);
  }

  lemma SiblingPassed(t: Tree, w: Window, h: Heading, spare: Column, j: nat)
    requires Inv(t) && IsPlaced(t, w) && IsTiled(t, w) && spare !in t.columns && ChildAt(t, w, j)
    requires if h.direction == Up then j > 0
             else h.direction == Down && j + 1 < |t.columns[t.windows[w].column].children|
    requires IndexOf(t.columns[t.windows[w].column].children, w) == j
    ensures CanCross(t, w, h)
    ensures MoveInDirection(t, w, h, spare) == (MovePast(t, w, j, if h.direction == Up then j - 1 else j + 1), true)
    ensures var m := MovePast(t, w, j, if h.direction == Up then j - 1 else j + 1);
            Inv(m) && OnlyMoves(t, m, w) && ColumnsPersist(t, m) && IsPlaced(m, w)
  {
    CanPassSibling(t, w, h.direction, j);
    WithinPasses(t, w, h.direction, spare, j);
    WithinIsMove(t, w, h, spare);
    hide Inv, MovePast, OnlyMoves, ColumnsPersist, CanGo, CanCross, Calm, MoveWithin, MoveInDirection, ChildAt;
  }

  lemma WithinIsMove(t: Tree, w: Window, h: Heading, spare: Column)
    requires Inv(t) && IsPlaced(t, w) && IsTiled(t, w) && spare !in t.columns && CanGo(t, w, h.direction)
    ensures CanCross(t, w, h) && MoveInDirection(t, w, h, spare) == MoveWithin(t, w, h.direction, spare)
    ensures MoveInDirection(t, w, h, spare).1
  {
    hide Inv, CanGo, MoveWithin, OnlyMoves, ColumnsPersist;
  }

  lemma WithinPasses(t: Tree, w: Window, direction: Direction, spare: Column, j: nat)
    requires Inv(t) && IsPlaced(t, w) && IsTiled(t, w) && spare !in t.columns && CanGo(t, w, direction)
    requires ChildAt(t, w, j) && IndexOf(t.columns[t.windows[w].column].children, w) == j
    requires if direction == Up then j > 0
             else direction == Down && j + 1 < |t.columns[t.windows[w].column].children|
    ensures MoveWithin(t, w, direction, spare).0 == MovePast(t, w, j, if direction == Up then j - 1 else j + 1)
  {
    hide Inv, MovePast, OnlyMoves, ColumnsPersist, CanGo, Calm, Swapped, ColumnsOk, Attached;
  }

  lemma CanPassSibling(t: Tree, w: Window, direction: Direction, j: nat)
    requires Inv(t) && IsPlaced(t, w) && IsTiled(t, w) && ChildAt(t, w, j)
    requires if direction == Up then j > 0
             else direction == Down && j + 1 < |t.columns[t.windows[w].column].children|
    requires IndexOf(t.columns[t.windows[w].column].children, w) == j
    ensures CanGo(t, w, direction)
  {
    hide Inv;
  }

  // ---------------------------------------------------------------------
  // At the edge
  // ---------------------------------------------------------------------

  /**
   * The window, child j of column i, has nowhere to go on its own output: it is
   * the first or last child, or alone in a column that has none on that side.
   */
  ghost predicate AtEdge(t: Tree, w: Window, direction: Direction, i: nat, j: nat) {
    && ColumnAt(t, w, i) && ChildAt(t, w, j)
    && var children := t.columns[t.windows[w].column].children;
       match direction
       case Up => j == 0
       case Down => j == |children| - 1
       case _ =>
         && children == [w]
         && NoneBeyond(t, t.workspaces[t.windows[w].workspace].columns, t.windows[w].output, i, direction == Left)
  }

  lemma EdgeStops(t: Tree, w: Window, direction: Direction, i: nat, j: nat)
    requires Inv(t) && IsPlaced(t, w) && IsTiled(t, w) && AtEdge(t, w, direction, i, j)
    ensures !CanGo(t, w, direction)
  {
    ChildrenAre(t, t.windows[w].column);
    IndexIs(t.columns[t.windows[w].column].children, j);
    if direction == Left || direction == Right {
      NeighbourIsNone(t, w, direction == Left, i);
    }
  }

  /** At the edge, and with no other output beyond it, a move changes nothing. */
  lemma MoveStopsAtEdge(t: Tree, w: Window, h: Heading, spare: Column, i: nat, j: nat)
    requires Inv(t) && IsPlaced(t, w) && IsTiled(t, w) && spare !in t.columns && AtEdge(t, w, h.direction, i, j)
    requires !h.beyond
    ensures CanCross(t, w, h) && Move(t, w, h, spare) == t
  {
    EdgeStops(t, w, h.direction, i, j);
    hide Inv, CanGo, MoveInDirection;
  }

  /** The first column on the output is at k. */
  ghost predicate IsFirst(t: Tree, columns: seq<Column>, output: Option<nat>, k: nat) {
    k < |columns| && On(t, columns, output, k) && forall j :: 0 <= j < k ==> !On(t, columns, output, j)
  }

  /** The column at k is the active one if that is on the output, and otherwise the first on it. */
  ghost predicate IsTarget(t: Tree, ws: WorkspaceState, output: Option<nat>, k: nat) {
    if ws.activeColumn in t.columns && t.columns[ws.activeColumn].output == output
    then k < |ws.columns| && ws.columns[k] == ws.activeColumn
    else IsFirst(t, ws.columns, output, k)
  }

  /** The column at k is where a move beyond the edge ends: the last on the output, the first, or the active one. */
  ghost predicate IsEdge(t: Tree, ws: WorkspaceState, output: Option<nat>, direction: Direction, k: nat) {
    match direction
    case Left =>
      && k < |ws.columns| && On(t, ws.columns, output, k)
      && forall j :: k < j < |ws.columns| ==> !On(t, ws.columns, output, j)
    case Down => IsTarget(t, ws, output, k)
    case _ => IsFirst(t, ws.columns, output, k)
  }

  lemma EdgeColumnMeans(t: Tree, w: Window, direction: Direction)
    requires Inv(t) && IsPlaced(t, w) && IsTiled(t, w) && t.windows[w].workspace in t.workspaces
    requires t.workspaces[t.windows[w].workspace].activeColumn != null
    ensures var ws, output := t.workspaces[t.windows[w].workspace], t.windows[w].output;
            && (forall c :: c in ws.columns ==> c in t.columns) && ws.activeColumn in t.columns
            && EdgeColumn(t, w, direction) ==
                 if direction == Down && t.columns[ws.activeColumn].output == output then ws.activeColumn
                 else if direction == Left then ColumnBefore(t, ws.columns, output, |ws.columns|)
                 else FirstColumnOn(t, ws.columns, output)
  {
    Pointers(t, w);
    OwnColumnCounts(t, w);
    hide Inv, ColumnBefore, FirstColumnOn;
  }

  lemma EdgeColumnIs(t: Tree, w: Window, direction: Direction, k: nat)
    requires Inv(t) && IsPlaced(t, w) && IsTiled(t, w) && t.windows[w].workspace in t.workspaces
    requires t.workspaces[t.windows[w].workspace].activeColumn != null
    requires IsEdge(t, t.workspaces[t.windows[w].workspace], t.windows[w].output, direction, k)
    ensures k < |t.workspaces[t.windows[w].workspace].columns|
    ensures EdgeColumn(t, w, direction) == t.workspaces[t.windows[w].workspace].columns[k]
  {
    EdgeColumnMeans(t, w, direction);
    hide Inv, EdgeColumn, ColumnBefore, FirstColumnOn;
    var ws, output := t.workspaces[t.windows[w].workspace], t.windows[w].output;
    match direction
    case Left => BeforeIsNearest(t, ws.columns, output, |ws.columns|, k);
    case Down =>
      if t.columns[ws.activeColumn].output != output {
        FirstIsFirst(t, ws.columns, output, k);
      }
    case _ => FirstIsFirst(t, ws.columns, output, k);
  }

  /**
   * Beyond the edge there is another output: the window joins the column at the
   * edge of its own output instead, first or last there if it moves down or up
   * and behind the active child otherwise, or stays if that is its own column.
   */
  lemma MoveGoesToEdge(t: Tree, w: Window, h: Heading, spare: Column, i: nat, j: nat, k: nat, a: nat)
    requires Inv(t) && IsPlaced(t, w) && IsTiled(t, w) && spare !in t.columns && AtEdge(t, w, h.direction, i, j)
    requires h.beyond && t.workspaces[t.windows[w].workspace].activeColumn != null
    requires IsEdge(t, t.workspaces[t.windows[w].workspace], t.windows[w].output, h.direction, k)
    requires var d := t.workspaces[t.windows[w].workspace].columns[k];
             if h.direction == Down then a == 0
             else if h.direction == Up then d in t.columns && a == |t.columns[d].children|
             else BehindActiveChild(t, d, a)
    ensures CanCross(t, w, h)
    ensures var d, u := t.workspaces[t.windows[w].workspace].columns[k], Move(t, w, h, spare);
            if d == t.windows[w].column
            then u.windows == t.windows && d in t.columns && d in u.columns && u.columns[d].children == t.columns[d].children
            else Joins(t, u, w, d, a)
  {
    Pointers(t, w);
    var s := t.windows[w].workspace;
    var d := t.workspaces[s].columns[k];
    assert d in t.workspaces[s].columns;
    EdgeStops(t, w, h.direction, i, j);
    EdgeColumnIs(t, w, h.direction, k);
    InWorkspace(t, s, d);
    var m := MoveBeyond(t, w, h.direction);
    assert MoveInDirection(t, w, h, spare) == (m, true);
    BeyondJoins(t, w, h.direction, d, a);
    hide Inv, MoveInDirection, MoveBeyond, Discard, FocusWindow, OutputStays, Attached, CanCross, CanGo, EdgeColumn;
    MovedMoves(t, m, w);
    AfterMove(m, t.windows[w].column, w, s, d);
  }

  lemma BeyondJoins(t: Tree, w: Window, direction: Direction, d: Column, a: nat)
    requires Inv(t) && IsPlaced(t, w) && IsTiled(t, w) && Attached(t, d) && t.windows[w].workspace in t.workspaces
    requires t.workspaces[t.windows[w].workspace].activeColumn != null && EdgeColumn(t, w, direction) == d
    requires if direction == Down then a == 0
             else if direction == Up then a == |t.columns[d].children|
             else BehindActiveChild(t, d, a)
    ensures var m := MoveBeyond(t, w, direction);
            && d in m.columns && t.windows[w].workspace in m.workspaces
            && if d == t.windows[w].column then m == t else Joins(t, m, w, d, a)
  {
    InWorkspace(t, t.windows[w].workspace, d);
    BeyondIsMove(t, w, direction, d);
    hide MoveBeyond, EdgeColumn;
    if d == t.windows[w].column {
      StaysHere(t, w, d, Some(direction));
    } else if direction == Left || direction == Right {
      ArrivesBehind(t, w, d, Some(direction), a);
    } else {
      assert ChildrenOk(t, d);
      hide Inv, MoveToColumn, OnlyMoves, ColumnsPersist, ChildrenOk, Attached, Insert;
      Arrives(t, w, d, Some(direction));
      InsertedAt(t.columns[d].children, w, a);
    }
  }

  lemma BeyondIsMove(t: Tree, w: Window, direction: Direction, d: Column)
    requires Inv(t) && IsPlaced(t, w) && IsTiled(t, w) && Attached(t, d) && t.windows[w].workspace in t.workspaces
    requires t.workspaces[t.windows[w].workspace].activeColumn != null && EdgeColumn(t, w, direction) == d
    ensures MoveBeyond(t, w, direction) == MoveToColumn(t, w, d, Some(direction))
    ensures ColumnsPersist(t, MoveBeyond(t, w, direction))
  {
    hide Inv, EdgeColumn, MoveToColumn, OnlyMoves, ColumnsPersist;
  }

  // ---------------------------------------------------------------------
  // To another workspace
  // ---------------------------------------------------------------------

  lemma TargetIs(t: Tree, s: Workspace, output: Option<nat>, k: nat)
    requires s in t.workspaces && ColumnsOk(t, s) && IsTarget(t, t.workspaces[s], output, k)
    ensures k < |t.workspaces[s].columns| && TargetColumn(t, s, output) == t.workspaces[s].columns[k]
  {
    var ws := t.workspaces[s];
    if !(ws.activeColumn in t.columns && t.columns[ws.activeColumn].output == output) {
      FirstIsFirst(t, ws.columns, output, k);
    }
  }

  /** No column of the workspace is on the output. */
  ghost predicate NoneOn(t: Tree, s: Workspace, output: Option<nat>)
    requires s in t.workspaces
  {
    forall j :: 0 <= j < |t.workspaces[s].columns| ==> !On(t, t.workspaces[s].columns, output, j)
  }

  lemma NoTarget(t: Tree, s: Workspace, output: Option<nat>)
    requires s in t.workspaces && ColumnsOk(t, s) && NoneOn(t, s, output)
    ensures TargetColumn(t, s, output) == null
  {
    var columns, target := t.workspaces[s].columns, TargetColumn(t, s, output);
    if target != null {
      var j :| 0 <= j < |columns| && columns[j] == target;
      assert On(t, columns, output, j);
    }
  }

  /** What considering a column and its workspace makes of the lists. */
  lemma CleanedUp(t: Tree, c: Column?, s: Workspace, r: Workspace)
    requires Inv(t) && (c != null ==> CanConsider(t, c) && t.columns[c].workspace == s) && s in t.workspaces
    requires r in t.workspaces
    ensures var u := CleanUp(t, c, s);
            && u.windows == t.windows && u.columns == t.columns && u.activeWorkspace == t.activeWorkspace
            && r in u.workspaces && u.workspaces[r].floating == t.workspaces[r].floating
            && u.workspaces[r].focusMode == t.workspaces[r].focusMode
            && u.workspaces[r].columns ==
                 (if r == s && c != null && t.columns[c].children == [] then Remove(t.workspaces[r].columns, c)
                  else t.workspaces[r].columns)
            && (!(r == s && c != null && t.columns[c].children == []) || t.workspaces[r].activeColumn != c ==>
                  u.workspaces[r].activeColumn == t.workspaces[r].activeColumn)
            && (u.workspaces[r].dead <==>
                  t.workspaces[r].dead
                  || (r == s && s != t.activeWorkspace && u.workspaces[s].columns == [] && u.workspaces[s].floating == []))
  {
    var v := if c == null then t else Discard(t, c);
    if c != null {
      DiscardedWorkspace(t, c, s, r);
      DiscardedWorkspace(t, c, s, s);
    }
    hide Inv, Discard, CanConsider, Remove;
    ConsideredWorkspace(v, s, r);
  }

  lemma DiscardedWorkspace(t: Tree, c: Column, s: Workspace, r: Workspace)
    requires Inv(t) && CanConsider(t, c) && t.columns[c].workspace == s && s in t.workspaces && r in t.workspaces
    ensures var v, empty := Discard(t, c), t.columns[c].children == [];
            && s in v.workspaces && v.windows == t.windows && v.columns == t.columns
            && v.activeWorkspace == t.activeWorkspace
            && r in v.workspaces && v.workspaces[r].floating == t.workspaces[r].floating
            && v.workspaces[r].focusMode == t.workspaces[r].focusMode
            && v.workspaces[r].columns == (if r == s && empty then Remove(t.workspaces[r].columns, c) else t.workspaces[r].columns)
            && (!(r == s && empty) || t.workspaces[r].activeColumn != c ==>
                  v.workspaces[r].activeColumn == t.workspaces[r].activeColumn)
            && (v.workspaces[r].dead <==>
                  t.workspaces[r].dead
                  || (empty && r == s && s != t.activeWorkspace
                      && v.workspaces[s].columns == [] && v.workspaces[s].floating == []))
  {
    if t.columns[c].children == [] {
      assert ColumnsOk(t, s);
      hide NextColumn, Inv, Remove;
    }
  }

  lemma ConsideredWorkspace(t: Tree, s: Workspace, r: Workspace)
    requires s in t.workspaces && r in t.workspaces
    ensures var u := ConsiderDestroyWorkspace(t, s);
            && r in u.workspaces
            && u.workspaces[r] == t.workspaces[r].(dead :=
                 t.workspaces[r].dead
                 || (r == s && s != t.activeWorkspace && t.workspaces[s].columns == [] && t.workspaces[s].floating == []))
  {
  }

  /** Cleaning up takes the focus from no window. */
  lemma CleanedUpFocus(t: Tree, c: Column?, s: Workspace, w: Window)
    requires Inv(t) && (c != null ==> CanConsider(t, c) && t.columns[c].workspace == s) && s in t.workspaces
    requires IsPlaced(t, w) && HasFocus(t, w)
    ensures HasFocus(CleanUp(t, c, s), w)
  {
    var u, r := CleanUp(t, c, s), t.windows[w].workspace;
    CleanedUp(t, c, s, r);
    if t.workspaces[r].focusMode.Tiling? {
      ActiveColumnHas(t, r, w);
    }
    ActiveColumnKnown(u, r);
    hide CleanUp, Inv, CanConsider, Remove;
  }

  lemma ActiveColumnHas(t: Tree, s: Workspace, w: Window)
    requires Inv(t) && s in t.workspaces && (t.workspaces[s].activeColumn != null ==> t.workspaces[s].activeColumn in t.columns)
    requires ActiveWindow(t, s) == w && t.workspaces[s].focusMode.Tiling?
    ensures t.workspaces[s].activeColumn != null && t.columns[t.workspaces[s].activeColumn].children != []
  {
    assert ChildrenOk(t, t.workspaces[s].activeColumn);
  }

  lemma ActiveColumnKnown(t: Tree, s: Workspace)
    requires Inv(t) && s in t.workspaces
    ensures t.workspaces[s].activeColumn != null ==> t.workspaces[s].activeColumn in t.columns
  {
    assert ColumnsOk(t, s);
  }

  /** What giving a window the focus makes of a workspace. */
  lemma FocusedWorkspace(t: Tree, s: Workspace, w: Window, r: Workspace)
    requires Inv(t) && CanFocus(t, s, w) && r in t.workspaces
    ensures var u := Focus(t, s, w);
            && HasFocus(u, w) && r in u.workspaces && u.workspaces[r].dead == t.workspaces[r].dead
            && u.workspaces[r].columns == t.workspaces[r].columns
            && (r != s ==> u.workspaces[r] == t.workspaces[r])
            && (r == s && t.windows[w].column == null && w in t.workspaces[s].floating ==>
                  u.workspaces[s].floating == Remove(t.workspaces[s].floating, w) + [w])
            && (t.windows[w].column != null ==> u.workspaces[r].floating == t.workspaces[r].floating)
  {
    FocusPointers(t, s, w);
    FocusTakes(t, s, w);
    FocusKeepsLists(t, s, w);
    assert FloatingOk(t, s);
    hide Inv;
    if w == ActiveWindow(t, s) && t.windows[w].column == null && w in t.workspaces[s].floating {
      AlreadyLast(t, s, w);
    }
  }

  lemma AlreadyLast(t: Tree, s: Workspace, w: Window)
    requires s in t.workspaces && FloatingOk(t, s) && w in t.workspaces[s].floating && w == ActiveFloating(t, s)
    ensures Remove(t.workspaces[s].floating, w) + [w] == t.workspaces[s].floating
  {
    IndexIs(t.workspaces[s].floating, |t.workspaces[s].floating| - 1);
  }

  /** The workspace a window left: it lost the window's column, if that had no other child, and died if that was all. */
  ghost predicate IsLeft(t: Tree, u: Tree, w: Window)
    requires IsPlaced(t, w)
  {
    var s, c := t.windows[w].workspace, t.windows[w].column;
    && s in t.workspaces && s in u.workspaces && (c != null ==> c in t.columns)
    && u.workspaces[s].columns ==
         (if c != null && t.columns[c].children == [w] then Remove(t.workspaces[s].columns, c) else t.workspaces[s].columns)
    && u.workspaces[s].floating == Remove(t.workspaces[s].floating, w)
    && (u.workspaces[s].dead <==>
          s != t.activeWorkspace && u.workspaces[s].columns == [] && u.workspaces[s].floating == [])
  }

  lemma NotFloating(t: Tree, s: Workspace, w: Window)
    requires Inv(t) && s in t.workspaces && IsTiled(t, w)
    ensures w !in t.workspaces[s].floating && Remove(t.workspaces[s].floating, w) == t.workspaces[s].floating
  {
    assert FloatingOk(t, s);
  }

  /** Floating, the window comes last in the other workspace's list. */
  lemma FloatsOver(t: Tree, w: Window, s: Workspace, spare: Column)
    requires Inv(t) && IsPlaced(t, w) && !IsTiled(t, w) && s in t.listed && spare !in t.columns && t.windows[w].workspace != s
    ensures var from, m := t.windows[w].workspace, MoveToWorkspace(t, w, s, spare);
            && s in t.workspaces && from in t.workspaces && s in m.workspaces && from in m.workspaces
            && m.columns == t.columns && m.windows[w].output == t.windows[w].output
            && m.workspaces[s] == t.workspaces[s].(floating := t.workspaces[s].floating + [w])
            && m.workspaces[from].floating == Remove(t.workspaces[from].floating, w)
            && m.workspaces[from].columns == t.workspaces[from].columns && m.workspaces[from].dead == t.workspaces[from].dead
  {
    Pointers(t, w);
  }

  /** Tiled, it joins the target column. */
  lemma JoinsTarget(t: Tree, w: Window, s: Workspace, spare: Column, k: nat, a: nat)
    requires Inv(t) && IsPlaced(t, w) && IsTiled(t, w) && s in t.listed && spare !in t.columns && t.windows[w].workspace != s
    requires s in t.workspaces && IsTarget(t, t.workspaces[s], t.windows[w].output, k) && k < |t.workspaces[s].columns|
    requires BehindActiveChild(t, t.workspaces[s].columns[k], a)
    ensures var d, c, m := t.workspaces[s].columns[k], t.windows[w].column, MoveToWorkspace(t, w, s, spare);
            && Joins(t, m, w, d, a) && m.workspaces == t.workspaces
            && c in t.columns && c in m.columns && m.columns[c].children == Remove(t.columns[c].children, w)
  {
    Pointers(t, w);
    assert ColumnsOk(t, s);
    var d := t.workspaces[s].columns[k];
    TargetIs(t, s, t.windows[w].output, k);
    assert d in t.workspaces[s].columns;
    InWorkspace(t, s, d);
    assert MoveToWorkspace(t, w, s, spare) == MoveToColumn(t, w, d, None);
    hide Inv, MoveToWorkspace, MoveToColumn, OnlyMoves, ColumnsPersist, TargetColumn, Remove, OutputStays;
    ArrivesBehind(t, w, d, None, a);
    MoveToColumnLeaves(t, w, d, None, t.windows[w].column);
  }

  /** Or a new first column. */
  lemma JoinsNewColumn(t: Tree, w: Window, s: Workspace, spare: Column)
    requires Inv(t) && IsPlaced(t, w) && IsTiled(t, w) && s in t.listed && spare !in t.columns && t.windows[w].workspace != s
    requires s in t.workspaces && NoneOn(t, s, t.windows[w].output)
    ensures var c, m := t.windows[w].column, MoveToWorkspace(t, w, s, spare);
            && m.windows[w].column == spare && spare in m.columns && m.columns[spare].children == [w]
            && m.workspaces == t.workspaces[s := t.workspaces[s].(columns := [spare] + t.workspaces[s].columns)]
            && c in t.columns && c in m.columns && m.columns[c].children == Remove(t.columns[c].children, w)
  {
    Pointers(t, w);
    assert ColumnsOk(t, s);
    NoTarget(t, s, t.windows[w].output);
    var made := NewColumn(t, s, t.windows[w].output, 0, spare);
    assert MoveToWorkspace(t, w, s, spare) == MoveToColumn(made, w, spare, None);
    NewColumnFirstOrLast(t.workspaces[s].columns, spare);
    hide Inv, MoveToWorkspace, MoveToColumn, ColumnsPersist, OnlyMoves, NewColumn, Remove, OutputStays, Attached, TargetColumn;
    hide ColumnsOk, Insert;
    MovedToMade(made, w, spare, None);
  }

  /** The move itself left the workspace the window comes from as it was, but for the window. */
  ghost predicate HasGone(t: Tree, m: Tree, w: Window)
    requires IsPlaced(t, w)
  {
    var from, c := t.windows[w].workspace, t.windows[w].column;
    && from in t.workspaces && from in m.workspaces && m.workspaces[from].dead == t.workspaces[from].dead
    && m.workspaces[from].columns == t.workspaces[from].columns
    && m.workspaces[from].floating == Remove(t.workspaces[from].floating, w)
    && (c != null ==> c in t.columns && c in m.columns && m.columns[c].children == Remove(t.columns[c].children, w))
  }

  /** The focus and the clean-up after the move. */
  lemma SendSettles(t: Tree, w: Window, s: Workspace, spare: Column)
    requires Inv(t) && IsPlaced(t, w) && s in t.listed && spare !in t.columns && t.windows[w].workspace != s
    requires HasGone(t, MoveToWorkspace(t, w, s, spare), w) && s in MoveToWorkspace(t, w, s, spare).workspaces
    requires IsTiled(t, w) || w in MoveToWorkspace(t, w, s, spare).workspaces[s].floating
    ensures var m, u := MoveToWorkspace(t, w, s, spare), SendToWorkspace(t, w, s, spare);
            && u.windows == m.windows && HasFocus(u, w) && u.activeWorkspace == t.activeWorkspace && IsLeft(t, u, w)
            && (forall d :: d in m.columns ==> d in u.columns && u.columns[d].children == m.columns[d].children)
            && s in u.workspaces && u.workspaces[s].columns == m.workspaces[s].columns
            && (!IsTiled(t, w) ==> u.workspaces[s].floating == Remove(m.workspaces[s].floating, w) + [w])
  {
    Pointers(t, w);
    var from, c := t.windows[w].workspace, t.windows[w].column;
    var m := MoveToWorkspace(t, w, s, spare);
    FocusedWorkspace(m, s, w, s);
    FocusedWorkspace(m, s, w, from);
    var f := Focus(m, s, w);
    SentOff(t, w, m, f);
    if c != null {
      TiledPointers(t, w);
      OnlyChild(t, c, w);
      NotFloating(t, from, w);
    }
    hide Inv, MoveToWorkspace, Focus, OnlyMoves, ColumnsPersist, Remove, OutputStays, Attached, CleanUp, CanConsider, HasFocus;
    hide ColumnsOk;
    CleanedUp(f, c, from, from);
    CleanedUp(f, c, from, s);
    CleanedUpFocus(f, c, from, w);
  }

  /** The column and workspace left behind can be considered. */
  lemma SentOff(t: Tree, w: Window, m: Tree, f: Tree)
    requires Inv(t) && IsPlaced(t, w) && ColumnsPersist(t, m) && OnlyFocusMoves(m, f)
    ensures t.windows[w].workspace in f.workspaces
    ensures var c := t.windows[w].column;
            c != null ==> CanConsider(f, c) && Attached(f, c) && f.columns[c].workspace == t.windows[w].workspace
  {
    Pointers(t, w);
    hide Inv, OutputStays;
    if t.windows[w].column != null {
      StaysAttached(t, m, t.windows[w].column);
      SameListsPersist(m, f);
      StaysAttached(m, f, t.windows[w].column);
    }
  }

  /**
   * A tiled window sent to a workspace joins the active column there if that is
   * on the window's output, or else the first one that is, behind the active
   * child. It has the focus there; which workspace shows does not change.
   */
  lemma SendGoesToTarget(t: Tree, w: Window, s: Workspace, spare: Column, k: nat, a: nat)
    requires Inv(t) && IsPlaced(t, w) && IsTiled(t, w) && s in t.listed && spare !in t.columns && t.windows[w].workspace != s
    requires s in t.workspaces && IsTarget(t, t.workspaces[s], t.windows[w].output, k) && k < |t.workspaces[s].columns|
    requires BehindActiveChild(t, t.workspaces[s].columns[k], a)
    ensures var u := SendToWorkspace(t, w, s, spare);
            && Joins(t, u, w, t.workspaces[s].columns[k], a) && HasFocus(u, w) && u.activeWorkspace == t.activeWorkspace
            && s in u.workspaces && u.workspaces[s].columns == t.workspaces[s].columns && IsLeft(t, u, w)
  {
    Pointers(t, w);
    JoinsTarget(t, w, s, spare, k, a);
    NotFloating(t, t.windows[w].workspace, w);
    hide Inv, MoveToWorkspace, SendToWorkspace, IsLeft, HasFocus, OnlyMoves, ColumnsPersist, Remove;
    SendSettles(t, w, s, spare);
  }

  /** With no column on its output there, it gets a new first one. */
  lemma SendMakesColumn(t: Tree, w: Window, s: Workspace, spare: Column)
    requires Inv(t) && IsPlaced(t, w) && IsTiled(t, w) && s in t.listed && spare !in t.columns && t.windows[w].workspace != s
    requires s in t.workspaces && NoneOn(t, s, t.windows[w].output)
    ensures var u := SendToWorkspace(t, w, s, spare);
            && w in u.windows && u.windows[w].column == spare && spare in u.columns && u.columns[spare].children == [w]
            && HasFocus(u, w) && u.activeWorkspace == t.activeWorkspace
            && s in u.workspaces && u.workspaces[s].columns == [spare] + t.workspaces[s].columns && IsLeft(t, u, w)
  {
    Pointers(t, w);
    JoinsNewColumn(t, w, s, spare);
    NotFloating(t, t.windows[w].workspace, w);
    hide Inv, MoveToWorkspace, SendToWorkspace, IsLeft, HasFocus, OnlyMoves, ColumnsPersist, Remove;
    SendSettles(t, w, s, spare);
  }

  /** A floating window comes on top of those there, and stays on its output. */
  lemma SendFloats(t: Tree, w: Window, s: Workspace, spare: Column)
    requires Inv(t) && IsPlaced(t, w) && !IsTiled(t, w) && s in t.listed && spare !in t.columns && t.windows[w].workspace != s
    ensures var u := SendToWorkspace(t, w, s, spare);
            && w in u.windows && u.windows[w].output == t.windows[w].output && HasFocus(u, w)
            && u.activeWorkspace == t.activeWorkspace && IsLeft(t, u, w)
            && s in t.workspaces && s in u.workspaces && u.workspaces[s].columns == t.workspaces[s].columns
            && u.workspaces[s].floating == t.workspaces[s].floating + [w]
  {
    Pointers(t, w);
    FloatsOver(t, w, s, spare);
    var floating := t.workspaces[s].floating;
    NotAmong(t, w, s);
    assert (floating + [w])[|floating|] == w;
    RemoveLast(floating, w);
    hide Inv, MoveToWorkspace, SendToWorkspace, IsLeft, HasFocus, OnlyMoves, ColumnsPersist, Remove;
    SendSettles(t, w, s, spare);
  }

  lemma NotAmong(t: Tree, w: Window, s: Workspace)
    requires Inv(t) && s in t.workspaces && w in t.windows && t.windows[w].workspace != s
    ensures w !in t.workspaces[s].floating && NoDuplicates(t.workspaces[s].floating)
  {
    assert FloatingOk(t, s);
  }

  lemma RemoveLast<T>(s: seq<T>, x: T)
    requires NoDuplicates(s) && x !in s
    ensures Remove(s + [x], x) == s
  {
    AppendKeepsNoDuplicates(s, x);
    RemoveIs(s + [x], |s|);
  }

  // ---------------------------------------------------------------------
  // Floating
  // ---------------------------------------------------------------------

  /** What taking a window out of its place leaves of its workspace. */
  lemma TakenOut(t: Tree, w: Window)
    requires Inv(t) && IsPlaced(t, w)
    ensures var s, c, out := t.windows[w].workspace, t.windows[w].column, TakeOut(t, w);
            && s in t.workspaces && s in out.workspaces
            && out.workspaces[s].columns == t.workspaces[s].columns
            && out.workspaces[s].activeColumn == t.workspaces[s].activeColumn
            && out.workspaces[s].floating == Remove(t.workspaces[s].floating, w)
            && (out.workspaces[s].focusMode ==
                  if c == null && out.workspaces[s].floating == [] then Tiling else t.workspaces[s].focusMode)
  {
    Pointers(t, w);
    if t.windows[w].column != null {
      NotFloating(t, t.windows[w].workspace, w);
    }
  }

  lemma RefloatedOnTop(t: Tree, w: Window)
    requires Inv(t) && IsPlaced(t, w)
    ensures var s, c, u := t.windows[w].workspace, t.windows[w].column, Refloat(t, w);
            && s in t.workspaces && s in u.workspaces && u.workspaces[s].columns == t.workspaces[s].columns
            && u.workspaces[s].floating == Remove(t.workspaces[s].floating, w) + [w]
            && u.windows[w].output == t.windows[w].output
            && (c != null ==> c in t.columns && c in u.columns && u.columns[c].workspace == s
                              && u.columns[c].children == Remove(t.columns[c].children, w))
  {
    Pointers(t, w);
    TakenOut(t, w);
  }

  lemma FloatedOnTop(t: Tree, w: Window)
    requires Inv(t) && IsPlaced(t, w)
    ensures var s, c, u := t.windows[w].workspace, t.windows[w].column, FloatOn(t, w);
            && s in t.workspaces && s in u.workspaces
            && u.workspaces[s].floating == Remove(t.workspaces[s].floating, w) + [w]
            && u.windows[w].output == t.windows[w].output && (c != null ==> c in t.columns)
            && u.workspaces[s].columns ==
                 if c != null && t.columns[c].children == [w] then Remove(t.workspaces[s].columns, c)
                 else t.workspaces[s].columns
  {
    RefloatedOnTop(t, w);
    RefloatMeans(t, w);
    var s, c, f := t.windows[w].workspace, t.windows[w].column, Refloat(t, w);
    if c == null {
      assert FloatOn(t, w) == f;
    } else {
      TiledPointers(t, w);
      OnlyChild(t, c, w);
      hide Inv, Refloat, Remove, OnlyMoves, Attached, CanConsider, OutputStays, Calm, Remembers;
      assert FloatOn(t, w) == Discard(f, c);
      hide Discard, FloatOn;
      DiscardedColumns(f, c, s);
    }
  }

  lemma LastAgain<T>(s: seq<T>, x: T)
    requires NoDuplicates(s)
    ensures Remove(Remove(s, x) + [x], x) + [x] == Remove(s, x) + [x]
  {
    RemoveKeepsNoDuplicates(s, x);
    RemoveMembers(s, x, x);
    RemoveLast(Remove(s, x), x);
  }

  /**
   * A window that is made to float comes on top of the floating windows of its
   * workspace and stays on its output; a column left empty goes. It keeps the
   * focus if it had it.
   */
  lemma FloatGoesOnTop(t: Tree, w: Window, focused: bool, spare: Column)
    requires Inv(t) && IsPlaced(t, w) && spare !in t.columns
    ensures var s, c, u := t.windows[w].workspace, t.windows[w].column, Float(t, w, true, focused, spare);
            && s in t.workspaces && s in u.workspaces && (c != null ==> c in t.columns)
            && u.workspaces[s].floating == Remove(t.workspaces[s].floating, w) + [w]
            && u.windows[w].output == t.windows[w].output && (focused ==> HasFocus(u, w))
            && u.workspaces[s].columns ==
                 if c != null && t.columns[c].children == [w] then Remove(t.workspaces[s].columns, c)
                 else t.workspaces[s].columns
  {
    Pointers(t, w);
    FloatedOnTop(t, w);
    var s := t.windows[w].workspace;
    var u := FloatOn(t, w);
    assert FloatingOk(t, s);
    LastAgain(t.workspaces[s].floating, w);
    assert u.workspaces[s].floating[|Remove(t.workspaces[s].floating, w)|] == w;
    hide Inv, FloatOn, Focus, Remove, OnlyMoves, HasFocus, OutputStays, ColumnsOk, Attached;
    FocusedWorkspace(u, s, w, s);
  }

  /** The place where a window of that output is put in this workspace. */
  lemma PutOnTarget(t: Tree, s: Workspace, w: Window, output: Option<nat>, spare: Column, k: nat, a: nat)
    requires Inv(t) && Detached(t, w) && !t.windows[w].dead && s in t.listed && output.Some? && spare !in t.columns
    requires s in t.workspaces && IsTarget(t, t.workspaces[s], output, k) && k < |t.workspaces[s].columns|
    requires BehindActiveChild(t, t.workspaces[s].columns[k], a)
    ensures var u := PutOnOutput(t, s, w, output, spare);
            Joins(t, u, w, t.workspaces[s].columns[k], a) && u.workspaces == t.workspaces
  {
    assert ColumnsOk(t, s);
    TargetIs(t, s, output, k);
    var d := t.workspaces[s].columns[k];
    assert d in t.workspaces[s].columns;
    InWorkspace(t, s, d);
    assert ChildrenOk(t, d);
    PutBehind(t, d, w, a);
    hide Inv, PutBehindActive, TargetColumn, Calm, OnlyMoves, ColumnsPersist, OutputStays, Remembers, Attached;
  }

  lemma PutBehind(t: Tree, c: Column, w: Window, a: nat)
    requires Inv(t) && Detached(t, w) && !t.windows[w].dead && Attached(t, c) && BehindActiveChild(t, c, a)
    ensures Joins(t, PutBehindActive(t, c, w), w, c, a)
  {
    assert ChildrenOk(t, c);
    if t.columns[c].activeChild != null {
      BehindActiveAt(t.columns[c], a - 1);
    }
  }

  lemma PutInNew(t: Tree, s: Workspace, w: Window, output: Option<nat>, spare: Column)
    requires Inv(t) && Detached(t, w) && !t.windows[w].dead && s in t.listed && output.Some? && spare !in t.columns
    ensures var u := PutInNewColumn(t, s, w, output, spare);
            && s in t.workspaces && s in u.workspaces && spare in u.columns && u.columns[spare].children == [w]
            && u.workspaces == t.workspaces[s := t.workspaces[s].(columns := [spare] + t.workspaces[s].columns)]
  {
    assert s in t.workspaces;
    var made := NewColumn(t, s, output, 0, spare);
    NewColumnFirstOrLast(t.workspaces[s].columns, spare);
    PutBehind(made, spare, w, 0);
    hide Inv, PutBehindActive, NewColumn, Calm, OnlyMoves, ColumnsPersist, OutputStays, Remembers, Attached, Insert;
  }

  lemma PutOnNew(t: Tree, s: Workspace, w: Window, output: Option<nat>, spare: Column)
    requires Inv(t) && Detached(t, w) && !t.windows[w].dead && s in t.listed && output.Some? && spare !in t.columns
    requires s in t.workspaces && NoneOn(t, s, output)
    ensures var u := PutOnOutput(t, s, w, output, spare);
            && u.windows[w].column == spare && spare in u.columns && u.columns[spare].children == [w]
            && u.workspaces == t.workspaces[s := t.workspaces[s].(columns := [spare] + t.workspaces[s].columns)]
  {
    assert ColumnsOk(t, s);
    NoTarget(t, s, output);
    PutInNew(t, s, w, output, spare);
    assert PutOnOutput(t, s, w, output, spare) == PutInNewColumn(t, s, w, output, spare);
    hide Inv, PutInNewColumn, PutOnOutput, OnlyMoves, ColumnsPersist;
  }

  /** A window that floats no more goes where one sent to the workspace would: to the target column, if there is one. */
  lemma UnfloatJoins(t: Tree, w: Window, focused: bool, spare: Column, k: nat, a: nat)
    requires Inv(t) && IsPlaced(t, w) && spare !in t.columns && t.windows[w].workspace in t.workspaces
    requires var s, out := t.windows[w].workspace, TakeOut(t, w);
             && s in out.workspaces && IsTarget(out, out.workspaces[s], t.windows[w].output, k)
             && k < |t.workspaces[s].columns| && BehindActiveChild(out, t.workspaces[s].columns[k], a)
    ensures var s, u := t.windows[w].workspace, Float(t, w, false, focused, spare);
            && Joins(TakeOut(t, w), u, w, t.workspaces[s].columns[k], a)
            && s in u.workspaces && u.workspaces[s].columns == t.workspaces[s].columns
            && (focused ==> HasFocus(u, w))
  {
    Pointers(t, w);
    TakenOut(t, w);
    var s, out := t.windows[w].workspace, TakeOut(t, w);
    PutOnTarget(out, s, w, t.windows[w].output, spare, k, a);
    var u := FloatOff(t, w, spare);
    assert u == PutOnOutput(out, s, w, t.windows[w].output, spare);
    hide Inv, FloatOff, PutOnOutput, TakeOut, Focus, OnlyMoves, ColumnsPersist, HasFocus, OutputStays, ColumnsOk;
    FocusedWorkspace(u, s, w, s);
  }

  /** If there is none, to a new first column. */
  lemma UnfloatMakesColumn(t: Tree, w: Window, focused: bool, spare: Column)
    requires Inv(t) && IsPlaced(t, w) && spare !in t.columns && t.windows[w].workspace in t.workspaces
    requires var s, out := t.windows[w].workspace, TakeOut(t, w); s in out.workspaces && NoneOn(out, s, t.windows[w].output)
    ensures var s, u := t.windows[w].workspace, Float(t, w, false, focused, spare);
            && w in u.windows && u.windows[w].column == spare && spare in u.columns && u.columns[spare].children == [w]
            && s in u.workspaces && u.workspaces[s].columns == [spare] + t.workspaces[s].columns
            && (focused ==> HasFocus(u, w))
  {
    Pointers(t, w);
    TakenOut(t, w);
    var s, out := t.windows[w].workspace, TakeOut(t, w);
    PutOnNew(out, s, w, t.windows[w].output, spare);
    var u := FloatOff(t, w, spare);
    assert u == PutOnOutput(out, s, w, t.windows[w].output, spare);
    hide Inv, FloatOff, PutOnOutput, TakeOut, Focus, OnlyMoves, ColumnsPersist, HasFocus, OutputStays, ColumnsOk;
    FocusedWorkspace(u, s, w, s);
  }

  /** Raised, a floating window is the last of its list and the others keep their order. */
  lemma RaiseGoesOnTop(t: Tree, w: Window, j: nat)
    requires Inv(t) && IsPlaced(t, w) && !IsTiled(t, w) && t.windows[w].workspace in t.workspaces
    requires j < |t.workspaces[t.windows[w].workspace].floating| && t.workspaces[t.windows[w].workspace].floating[j] == w
    ensures WindowOk(t, w)
    ensures var s := t.windows[w].workspace;
            var floating := t.workspaces[s].floating;
            Raise(t, w) == t.(workspaces := t.workspaces[s :=
              t.workspaces[s].(floating := floating[..j] + floating[j + 1..] + [w])])
  {
    assert WindowOk(t, w);
    assert FloatingOk(t, t.windows[w].workspace);
    RemoveIs(t.workspaces[t.windows[w].workspace].floating, j);
  }

  /**
   * A dragged window floats on top of the others of its workspace. If it was
   * tiled it also has the focus then, and its workspace shows; otherwise the
   * workspace that shows stays.
   */
  lemma DragGoesOnTop(t: Tree, w: Window)
    requires Inv(t) && IsPlaced(t, w)
    ensures var s, u := t.windows[w].workspace, DragDetach(t, w);
            && s in t.workspaces && s in u.workspaces && w in u.windows && u.windows[w].output == t.windows[w].output
            && u.workspaces[s].floating == Remove(t.workspaces[s].floating, w) + [w]
            && (if IsTiled(t, w) then HasFocus(u, w) && u.activeWorkspace == s else u.activeWorkspace == t.activeWorkspace)
  {
    Pointers(t, w);
    if IsTiled(t, w) {
      DragOfTiled(t, w);
    } else {
      RaisedOnTop(t, w);
      hide Inv;
    }
  }

  lemma DragOfTiled(t: Tree, w: Window)
    requires Inv(t) && IsPlaced(t, w) && IsTiled(t, w)
    ensures var s, u := t.windows[w].workspace, DragDetach(t, w);
            && s in t.workspaces && s in u.workspaces && w in u.windows && u.windows[w].output == t.windows[w].output
            && u.workspaces[s].floating == Remove(t.workspaces[s].floating, w) + [w]
            && HasFocus(u, w) && u.activeWorkspace == s
  {
    Pointers(t, w);
    var s := t.windows[w].workspace;
    assert FloatingOk(t, s);
    FloatedOnTop(t, w);
    var f := FloatOn(t, w);
    LastAgain(t.workspaces[s].floating, w);
    ShownOnTop(f, w);
    RaisedOnTop(FocusWindow(f, w), w);
    hide Inv, FloatOn, FocusWindow, Raise, Remove, HasFocus, OnlyMoves, OutputStays, SameLists, FloatingOk, ColumnsOk;
    assert DragDetach(t, w) == Raise(FocusWindow(f, w), w);
  }

  lemma RaisedOnTop(t: Tree, w: Window)
    requires Inv(t) && IsPlaced(t, w) && !IsTiled(t, w)
    ensures WindowOk(t, w)
    ensures var s, u := t.windows[w].workspace, Raise(t, w);
            && s in t.workspaces && s in u.workspaces && u.windows == t.windows && u.activeWorkspace == t.activeWorkspace
            && u.workspaces[s].floating == Remove(t.workspaces[s].floating, w) + [w]
            && (HasFocus(t, w) ==> HasFocus(u, w))
  {
    Pointers(t, w);
    assert WindowOk(t, w);
  }

  lemma ShownOnTop(t: Tree, w: Window)
    requires Inv(t) && IsPlaced(t, w) && !IsTiled(t, w)
    ensures var s, u := t.windows[w].workspace, FocusWindow(t, w);
            && s in t.workspaces && s in u.workspaces && w in u.windows
            && u.workspaces[s].floating == Remove(t.workspaces[s].floating, w) + [w]
            && HasFocus(u, w) && u.activeWorkspace == s
  {
    Pointers(t, w);
    var s := t.windows[w].workspace;
    SwitchShows(t, s);
    FocusIsShown(t, w);
    hide Inv, FocusWindow, Switch, Focus, Remove, HasFocus, OutputStays, SameLists;
    FocusedWorkspace(Switch(t, s), s, w, s);
  }

  lemma FocusIsShown(t: Tree, w: Window)
    requires Inv(t) && IsPlaced(t, w) && t.windows[w].workspace in t.listed
    ensures var s := t.windows[w].workspace;
            CanFocus(Switch(t, s), s, w) && FocusWindow(t, w) == Focus(Switch(t, s), s, w)
  {
    hide Inv, SetActiveWindow, SetActiveWorkspace;
    ShowKeeps(t, w);
  }

  // ---------------------------------------------------------------------
  // Which workspace shows
  // ---------------------------------------------------------------------

  /**
   * Switching shows the workspace, on the output of its active column if it has
   * one; the workspace that showed before dies if and only if it is empty, and no
   * other changes.
   */
  lemma SwitchShows(t: Tree, s: Workspace)
    requires Inv(t) && s in t.listed
    ensures ColumnsOk(t, s)
    ensures var u, c := Switch(t, s), t.workspaces[s].activeColumn;
            && u.activeWorkspace == s && u.columns == t.columns && s in u.workspaces && u.workspaces[s] == t.workspaces[s]
            && (s != t.activeWorkspace ==>
                  u.activeOutput == if c != null then t.columns[c].output else t.activeOutput)
            && (forall r :: r in t.workspaces ==>
                  && r in u.workspaces
                  && u.workspaces[r] == t.workspaces[r].(dead :=
                       t.workspaces[r].dead || (r == t.activeWorkspace && r != s
                                                && t.workspaces[r].columns == [] && t.workspaces[r].floating == [])))
  {
    CanSwitch(t, s);
    if t.activeWorkspace != null {
      ActiveIsListed(t);
    }
    hide Inv;
  }

  /** A new workspace is empty and listed, and shows only if none did. */
  lemma CreatedShows(t: Tree, s: Workspace)
    requires Inv(t) && s !in t.workspaces
    ensures var u := CreateWorkspace(t, s);
            && u.listed == t.listed + {s} && s in u.workspaces
            && u.workspaces[s].columns == [] && u.workspaces[s].floating == [] && !u.workspaces[s].dead
            && u.activeWorkspace == (if t.listed == {} then s else t.activeWorkspace)
  {
    if t.activeWorkspace != null {
      ActiveIsListed(t);
    }
  }

  // ---------------------------------------------------------------------
  // What takes over
  // ---------------------------------------------------------------------

  /** A window that joins a column becomes its active child only if it is the first. */
  lemma FirstChildIsActive(t: Tree, c: Column, w: Window, i: nat)
    requires Inv(t) && CanInsertChild(t, c, w, i)
    ensures PutInColumn(t, c, w, i).columns[c].activeChild ==
              if t.columns[c].children == [] then w else t.columns[c].activeChild
  {
  }

  /** When the last floating window goes, the focus goes back to the tiled ones, and not before. */
  lemma LastFloatingGivesFocus(t: Tree, w: Window)
    requires Inv(t) && IsPlaced(t, w) && !IsTiled(t, w)
    ensures var s, u := t.windows[w].workspace, TakeOut(t, w);
            && s in t.workspaces && s in u.workspaces
            && u.workspaces[s].focusMode ==
                 if t.workspaces[s].floating == [w] then Tiling else t.workspaces[s].focusMode
  {
    Pointers(t, w);
    TakenOut(t, w);
  }

  /** The column at k takes over from the one at i: the nearest before it on the same output, or else the nearest behind. */
  ghost predicate Succeeds(t: Tree, columns: seq<Column>, output: Option<nat>, i: nat, k: nat) {
    NextTo(t, columns, output, i, true, k)
    || (NoneBeyond(t, columns, output, i, true) && NextTo(t, columns, output, i, false, k))
  }

  /**
   * An empty column that is considered goes. If it was the active one, the
   * nearest column before it on its output takes over, or else the nearest behind
   * it, or else none; a workspace that has nothing left and does not show dies.
   */
  lemma EmptyColumnGoes(t: Tree, c: Column, s: Workspace, i: nat)
    requires Inv(t) && CanConsider(t, c) && t.columns[c].children == [] && t.columns[c].workspace == s
    requires s in t.workspaces && i < |t.workspaces[s].columns| && t.workspaces[s].columns[i] == c
    ensures var columns, output, u := t.workspaces[s].columns, t.columns[c].output, Discard(t, c);
            && s in u.workspaces && u.workspaces[s].columns == columns[..i] + columns[i + 1..]
            && (t.workspaces[s].activeColumn != c ==> u.workspaces[s].activeColumn == t.workspaces[s].activeColumn)
            && (t.workspaces[s].activeColumn == c ==>
                  if u.workspaces[s].activeColumn == null
                  then NoneBeyond(t, columns, output, i, true) && NoneBeyond(t, columns, output, i, false)
                  else exists k: nat :: Succeeds(t, columns, output, i, k) && k < |columns| && u.workspaces[s].activeColumn == columns[k])
            && (u.workspaces[s].dead <==>
                  u.workspaces[s].columns == [] && t.workspaces[s].floating == [] && s != t.activeWorkspace)
  {
    assert ColumnsOk(t, s);
    var columns, output := t.workspaces[s].columns, t.columns[c].output;
    RemoveIs(columns, i);
    IndexIs(columns, i);
    var rest := Remove(columns, c);
    forall d | d in rest
      ensures d in t.columns
    {
      RemoveMembers(columns, c, d);
    }
    Successor(t, columns, output, i, rest);
    assert !t.workspaces[s].dead;
    assert UnlinkColumn(t, c).workspaces[s].columns == rest;
  }

  /** The choice among the remaining columns, in terms of all of them. */
  lemma Successor(t: Tree, columns: seq<Column>, output: Option<nat>, i: nat, rest: seq<Column>)
    requires i < |columns| && rest == columns[..i] + columns[i + 1..] && forall d :: d in rest ==> d in t.columns
    ensures var r := NextColumn(t, rest, output, i);
            if r == null then NoneBeyond(t, columns, output, i, true) && NoneBeyond(t, columns, output, i, false)
            else exists k: nat :: Succeeds(t, columns, output, i, k) && k < |columns| && r == columns[k]
  {
    NextColumnIs(t, rest, output, i);
    var r := NextColumn(t, rest, output, i);
    hide NextColumn, Succeeds;
    if r == null {
      forall j | 0 <= j < |columns| && j != i
        ensures !On(t, columns, output, j)
      {
        StandsAt(columns, i, rest, j);
      }
    } else {
      var p: nat :| p < |rest| && rest[p] == r && TakesOver(t, rest, output, i, p);
      var k := if p < i then p else p + 1;
      StandsAt(columns, i, rest, k);
      SuccessorAt(t, columns, output, i, rest, k);
    }
  }

  lemma StandsAt<T>(columns: seq<T>, i: nat, rest: seq<T>, j: nat)
    requires i < |columns| && rest == columns[..i] + columns[i + 1..] && j < |columns| && j != i
    ensures rest[if j < i then j else j - 1] == columns[j]
  {
  }

  lemma SuccessorAt(t: Tree, columns: seq<Column>, output: Option<nat>, i: nat, rest: seq<Column>, k: nat)
    requires i < |columns| && rest == columns[..i] + columns[i + 1..] && (forall d :: d in rest ==> d in t.columns)
    requires k < |columns| && k != i && TakesOver(t, rest, output, i, if k < i then k else k - 1)
    ensures Succeeds(t, columns, output, i, k)
  {
    StandsAt(columns, i, rest, k);
    forall j | 0 <= j < |columns| && j != i && (if k < i then k < j < i else j < k)
      ensures !On(t, columns, output, j)
    {
      StandsAt(columns, i, rest, j);
    }
  }

  // ---------------------------------------------------------------------
  // Windows come and go
  // ---------------------------------------------------------------------

  /** A new floating window comes on top, on the active output. */
  lemma MapFloats(t: Tree, w: Window, output: Option<nat>, focus: bool, spare: Column)
    requires CanMap(t, w, true, output) && spare !in t.columns
    ensures var s, u := t.activeWorkspace, Map(t, w, true, output, focus, spare);
            && s in t.workspaces && s in u.workspaces && w in u.windows && u.windows[w].output == t.activeOutput
            && u.workspaces[s].floating == t.workspaces[s].floating + [w] && (focus ==> HasFocus(u, w))
  {
    ActiveIsListed(t);
    CreateWindowKeeps(t, w);
    var s: Workspace := t.activeWorkspace;
    var made := CreateWindow(t, w);
    var placed := PutFloating(made, s, w);
    assert MapUnfocused(t, w, true, output, spare) == placed;
    NotAmong(made, w, s);
    RemoveLast(t.workspaces[s].floating, w);
    if focus {
      hide Inv, PutFloating, FocusWindow, Remove, HasFocus, OnlyMoves, ColumnsPersist, OutputStays, SameLists;
      ShownOnTop(placed, w);
      FocusWindowKeepsOutputs(placed, w);
    }
  }

  lemma FocusWindowKeepsOutputs(t: Tree, w: Window)
    requires Inv(t) && IsPlaced(t, w)
    ensures FocusWindow(t, w).windows == t.windows
  {
    hide Inv, FocusWindow;
  }

  lemma FocusWindowFocuses(t: Tree, w: Window)
    requires Inv(t) && IsPlaced(t, w)
    ensures HasFocus(FocusWindow(t, w), w)
  {
    PlacedCanShow(t, w);
    hide Inv, SetFocusedWindow, HasFocus, CanShow;
    FocusWindowTakes(t, w);
  }

  /** A new tiled window comes right behind the active child of the active column. */
  lemma MapJoinsFocused(t: Tree, w: Window, output: Option<nat>, focus: bool, spare: Column, a: nat)
    requires CanMap(t, w, false, output) && spare !in t.columns && t.activeWorkspace in t.workspaces
    requires t.workspaces[t.activeWorkspace].activeColumn in t.columns
    requires t.columns[t.workspaces[t.activeWorkspace].activeColumn].activeChild != null
    requires BehindActiveChild(t, t.workspaces[t.activeWorkspace].activeColumn, a)
    ensures var s, u := t.activeWorkspace, Map(t, w, false, output, focus, spare);
            && Joins(t, u, w, t.workspaces[s].activeColumn, a) && (focus ==> HasFocus(u, w))
            && s in u.workspaces && u.workspaces[s].columns == t.workspaces[s].columns
  {
    CreateWindowKeeps(t, w);
    var s: Workspace := t.activeWorkspace;
    var c: Column := t.workspaces[s].activeColumn;
    var made := CreateWindow(t, w);
    ActiveIsListed(made);
    ActiveColumnIs(made, s);
    var placed := PutBehindActive(made, c, w);
    PutBehind(made, c, w, a);
    assert MapUnfocused(t, w, false, output, spare) == placed;
    hide Inv, PutBehindActive, FocusWindow, HasFocus, OnlyMoves, ColumnsPersist, OutputStays, Remembers, MapUnfocused;
    if focus {
      FocusWindowFocuses(placed, w);
    }
  }

  /** Or in a new first column, on the output asked for, if no tiled window is active. */
  lemma MapMakesColumn(t: Tree, w: Window, output: Option<nat>, focus: bool, spare: Column)
    requires CanMap(t, w, false, output) && spare !in t.columns && t.activeWorkspace in t.workspaces
    requires var c := t.workspaces[t.activeWorkspace].activeColumn; c in t.columns ==> t.columns[c].activeChild == null
    ensures var s, u := t.activeWorkspace, Map(t, w, false, output, focus, spare);
            && w in u.windows && u.windows[w].column == spare && u.windows[w].output == output
            && spare in u.columns && u.columns[spare].children == [w] && (focus ==> HasFocus(u, w))
            && s in u.workspaces && u.workspaces[s].columns == [spare] + t.workspaces[s].columns
  {
    CreateWindowKeeps(t, w);
    var s: Workspace := t.activeWorkspace;
    var made := CreateWindow(t, w);
    ActiveIsListed(made);
    ActiveColumnIs(made, s);
    PutInNew(made, s, w, output, spare);
    var placed := PutInNewColumn(made, s, w, output, spare);
    assert MapUnfocused(t, w, false, output, spare) == placed;
    hide Inv, PutInNewColumn, FocusWindow, HasFocus, OnlyMoves, ColumnsPersist, OutputStays, Remembers, MapUnfocused;
    if focus {
      FocusWindowFocuses(placed, w);
    }
  }

  /** The workspace of a window that is unmapped loses the window, its column if that is empty now, and its life if that was all. */
  lemma UnmapLeaves(t: Tree, w: Window)
    requires Inv(t) && IsPlaced(t, w)
    ensures IsLeft(t, Unmap(t, w), w)
  {
    Pointers(t, w);
    KilledStays(t, w);
    TakenOut(t, w);
    var s, c := t.windows[w].workspace, t.windows[w].column;
    var killed := Kill(TakeOut(t, w), w);
    if c != null {
      TiledPointers(t, w);
      OnlyChild(t, c, w);
    }
    AliveAfter(t, w);
    hide Inv, TakeOut, CleanUp, Remove, OnlyMoves, CanConsider, ColumnsOk, Attached;
    CleanedUp(killed, c, s, s);
    assert Unmap(t, w) == CleanUp(killed, c, s);
  }

  lemma AliveAfter(t: Tree, w: Window)
    requires Inv(t) && IsPlaced(t, w) && t.windows[w].workspace in t.workspaces
    ensures var s, c, out := t.windows[w].workspace, t.windows[w].column, TakeOut(t, w);
            && s in out.workspaces && !out.workspaces[s].dead && out.activeWorkspace == t.activeWorkspace
            && (c in t.columns ==> c in out.columns && out.columns[c].workspace == t.columns[c].workspace)
  {
    Pointers(t, w);
  }

  /** A drag that leaves its column takes an empty one out of its workspace, and no other. */
  lemma LeavingTakesEmptyColumn(x: World)
    requires InOrder(x) && CanLeave(x) && Destination(x) != null
    ensures var c, y := Destination(x), LeaveDestination(x);
            && c in x.tree.columns && x.tree.columns[c].workspace in x.tree.workspaces && c !in y.previews
            && var s := x.tree.columns[c].workspace;
               && s in y.tree.workspaces
               && y.tree.workspaces[s].columns ==
                    if x.tree.columns[c].children == [] then Remove(x.tree.workspaces[s].columns, c)
                    else x.tree.workspaces[s].columns
  {
    var c: Column := Destination(x);
    DiscardedColumns(x.tree, c, x.tree.columns[c].workspace);
    hide Inv, Discard, Attached, Remove;
  }
}
