/** What holds after every run of the commands and events on the window tree. */
module TreeTheorems {
  import opened Seqs
  import opened Tree
  import opened TreeInvariant
  import opened TreeSteps
  import opened TreeCommands
  import opened TreeDrags
  import opened TreeRuns

  // ---------------------------------------------------------------------
  // Every attached window is in exactly one list, exactly once
  // ---------------------------------------------------------------------

  datatype Place = InColumn(column: Column, index: nat) | InFloating(workspace: Workspace, index: nat)

  /** The window sits at this place. */
  ghost predicate At(t: Tree, w: Window, p: Place) {
    match p
    case InColumn(c, i) => c in t.columns && i < |t.columns[c].children| && t.columns[c].children[i] == w
    case InFloating(s, i) => s in t.workspaces && i < |t.workspaces[s].floating| && t.workspaces[s].floating[i] == w
  }

  /** The place that the window's own pointers lead to. */
  ghost function PlaceOf(t: Tree, w: Window): (p: Place)
    requires Inv(t) && IsPlaced(t, w)
    ensures At(t, w, p)
  {
    Pointers(t, w);
    if t.windows[w].column != null
    then InColumn(t.windows[w].column, IndexOf(t.columns[t.windows[w].column].children, w))
    else InFloating(t.windows[w].workspace, IndexOf(t.workspaces[t.windows[w].workspace].floating, w))
  }

  lemma OnePlace(t: Tree, w: Window, p: Place)
    requires Inv(t) && At(t, w, p)
    ensures IsPlaced(t, w) && !t.windows[w].dead && p == PlaceOf(t, w)
  {
    match p
    case InColumn(c, i) =>
      assert ChildrenOk(t, c);
      IndexIs(t.columns[c].children, i);
    case InFloating(s, i) =>
      assert FloatingOk(t, s);
      IndexIs(t.workspaces[s].floating, i);
  }

  /**
   * After every run that did not go wrong, a window that is attached is at
   * exactly one place, the one its pointers lead to; one that is not, or is
   * dead, is nowhere.
   */
  lemma EveryRunPlacesWindowsOnce(events: seq<Event>, w: Window, p: Place)
    requires After(events).Some?
    ensures var t := After(events).value.tree;
            At(t, w, p) <==> IsPlaced(t, w) && p == PlaceOf(t, w)
    ensures var t := After(events).value.tree; At(t, w, p) ==> !t.windows[w].dead
  {
    var t := After(events).value.tree;
    hide After;
    if At(t, w, p) {
      OnePlace(t, w, p);
    }
  }

  /** After every such run the focus pointers lead into the lists. */
  lemma EveryRunKeepsFocus(events: seq<Event>)
    requires After(events).Some?
    ensures var t := After(events).value.tree;
            && (forall c :: c in t.columns ==>
                  if t.columns[c].children == [] then t.columns[c].activeChild == null
                  else t.columns[c].activeChild in t.columns[c].children)
            && (forall s :: s in t.workspaces ==>
                  && (t.workspaces[s].activeColumn == null || t.workspaces[s].activeColumn in t.workspaces[s].columns)
                  && (t.workspaces[s].focusMode.Floating? ==> t.workspaces[s].floating != []))
            && (t.activeWorkspace != null ==> t.activeWorkspace in t.listed && !t.workspaces[t.activeWorkspace].dead)
  {
    var t := After(events).value.tree;
    hide After;
    forall c | c in t.columns
      ensures ChildrenOk(t, c)
    {
    }
    forall s | s in t.workspaces
      ensures ColumnsOk(t, s) && FloatingOk(t, s)
    {
    }
  }

  /** After every such run back-pointers agree: of a window, its column, its workspace and its output. */
  lemma EveryRunKeepsBackPointers(events: seq<Event>, w: Window)
    requires After(events).Some? && IsPlaced(After(events).value.tree, w)
    ensures var t := After(events).value.tree;
            var c, s := t.windows[w].column, t.windows[w].workspace;
            && s in t.workspaces && !t.workspaces[s].dead && t.windows[w].output.Some?
            && if c == null then w in t.workspaces[s].floating
               else c in t.columns && w in t.columns[c].children && s == t.columns[c].workspace
                    && c in t.workspaces[s].columns && t.windows[w].output == t.columns[c].output
  {
    var t := After(events).value.tree;
    hide After;
    Pointers(t, w);
  }

  /**
   * A run from the beginning goes wrong if and only if it meets an event that is
   * not sound: one that has to do with a drag's destination, which no longer
   * hangs where it did or is about to lose its only child, or a move beyond the
   * edge in a workspace without an active column.
   */
  lemma EveryRunBreaks(events: seq<Event>)
    requires IsHistory(events)
    ensures After(events).None? <==> exists n :: 0 <= n < |events| && BreaksAfter(events, n)
  {
    BeginsInOrder();
    RunBreaks(BEGIN, events);
    hide InOrder, IsRun, Run, Sound, Admissible;
    forall n | 0 <= n < |events|
      ensures BreaksAfter(events, n) <==> BreaksAt(BEGIN, events, n)
    {
    }
  }

  ghost predicate BreaksAfter(events: seq<Event>, n: nat)
    requires n < |events|
  {
    && After(events[..n]).Some?
    && var x := After(events[..n]).value; Admissible(x, events[n]) && !Sound(x, events[n])
  }

  ghost predicate IsCarefulHistory(events: seq<Event>) {
    BeginsInOrder();
    IsCareful(BEGIN, events)
  }

  /**
   * No run goes wrong in which, while a drag is over a column, no command moves
   * a window and no other drag begins, and moves beyond the edge find an active
   * column.
   */
  lemma EveryCarefulRunSucceeds(events: seq<Event>)
    requires IsHistory(events) && IsCarefulHistory(events)
    ensures After(events).Some?
  {
    BeginsInOrder();
    hide InOrder, IsRun, Run, IsCareful;
    CarefulRunsSucceed(BEGIN, events);
  }

  /** No event changes where any window but the one it is about belongs, or which output it is on. */
  lemma OtherWindowsStay(x: World, e: Event, v: Window)
    requires InOrder(x) && Admissible(x, e) && Proceeds(x, e) && v in x.tree.windows && v != Mover(x, e)
    ensures v in Step(x, e).tree.windows && Step(x, e).tree.windows[v] == x.tree.windows[v]
  {
    hide Inv, Admissible, Proceeds, Step, OutputStays, Remembers;
  }

  /**
   * No move in a direction takes a window to another output, although there is
   * a branch for it: window_tiling_move_to_next_output passes on the output that
   * the window is on already.
   */
  lemma MovesStayOnOutput(x: World, w: Window, h: Heading, spare: Column)
    requires InOrder(x) && IsPlaced(x.tree, w) && spare !in x.tree.columns && CanMove(x, w, h, spare)
    ensures var u := MoveStep(x, w, h, spare).tree; w in u.windows && u.windows[w].output == x.tree.windows[w].output
  {
    hide Inv, OnlyMoves, Move, Goes, CanCross, EndMouseOperation, CanLeave, OutputStays, Remembers;
  }

  // ---------------------------------------------------------------------
  // The active output
  // ---------------------------------------------------------------------

  /** Every event but one keeps the active output on the active column's. */
  lemma OutputIsKept(x: World, e: Event)
    requires InOrder(x) && Admissible(x, e) && Proceeds(x, e) && !e.OutputEntered? && OutputFollowsFocus(x.tree)
    ensures OutputFollowsFocus(Step(x, e).tree)
  {
    hide Inv, Admissible, Proceeds, Step, OutputFollowsFocus, Remembers;
  }

  /** Unless the pointer enters another output, what root_validate asserts of the active output holds in every run. */
  lemma {:induction false} RunKeepsOutput(x: World, events: seq<Event>)
    requires InOrder(x) && OutputFollowsFocus(x.tree) && Run(x, events).Some?
    requires forall e :: e in events ==> !e.OutputEntered?
    ensures OutputFollowsFocus(Run(x, events).value.tree)
    decreases |events|
  {
    hide InOrder, Admissible, Proceeds, Step, OutputFollowsFocus;
    if events != [] {
      assert events[0] in events;
      OutputIsKept(x, events[0]);
      RunKeepsOutput(Step(x, events[0]), events[1..]);
    }
  }

  lemma EveryRunKeepsOutput(events: seq<Event>)
    requires After(events).Some? && forall e :: e in events ==> !e.OutputEntered?
    ensures OutputValid(After(events).value.tree)
  {
    BeginsInOrder();
    RunKeepsOutput(BEGIN, events);
    hide After;
  }

  /** The output of the column that has the focus of the workspace that shows. */
  ghost function FocusedOutput(t: Tree): Option<nat>
    requires Inv(t)
  {
    if t.activeWorkspace == null then None
    else
      ActiveIsListed(t);
      var ws := t.workspaces[t.activeWorkspace];
      if ws.focusMode.Floating? || ws.activeColumn == null then None else t.columns[ws.activeColumn].output
  }

  /**
   * root_set_active_output on its own keeps the tree in order, and keeps what
   * root_validate asserts if and only if no tiled window on another output has
   * the focus.
   */
  lemma EnteringOutput(t: Tree, output: nat)
    requires Inv(t)
    ensures Inv(EnterOutput(t, output))
    ensures OutputValid(EnterOutput(t, output)) <==> FocusedOutput(t) in {None, Some(output)}
  {
    SetOutputKeeps(t, Some(output));
    if t.activeWorkspace != null {
      ActiveIsListed(t);
    }
  }

  /**
   * Focusing a tiled window puts that right, unless the window is the active one
   * already: then nothing is done.
   */
  lemma FocusRestoresOutput(t: Tree, w: Window)
    requires Inv(t) && IsPlaced(t, w) && IsTiled(t, w)
    ensures OutputValid(FocusWindow(t, w))
            <==> !HasFocus(t, w) || t.windows[w].workspace != t.activeWorkspace || t.activeOutput == t.windows[w].output
  {
    Pointers(t, w);
    ShowKeeps(t, w);
  }

  // ---------------------------------------------------------------------
  // Focus
  // ---------------------------------------------------------------------

  /** The window has the focus of its workspace. */
  ghost predicate HasFocus(t: Tree, w: Window) {
    && w in t.windows && t.windows[w].workspace in t.workspaces
    && (var c := t.workspaces[t.windows[w].workspace].activeColumn; c != null ==> c in t.columns)
    && ActiveWindow(t, t.windows[w].workspace) == w
  }

  /** The window that was asked for is the active one, and asking again changes nothing. */
  lemma FocusTakes(t: Tree, s: Workspace, w: Window?)
    requires FocusDefined(t, s, w)
    ensures var u := SetActiveWindow(t, s, w);
            && FocusDefined(u, s, w)
            && ActiveWindow(u, s) == w
            && SetActiveWindow(u, s, w) == u
  {
  }

  /** root_set_focused_window leaves the window with the focus of the whole tree. */
  lemma FocusWindowTakes(t: Tree, w: Window)
    requires CanShow(t, w)
    ensures var u := SetFocusedWindow(t, w);
            HasFocus(u, w) && u.activeWorkspace == t.windows[w].workspace == u.windows[w].workspace
  {
    var s := t.windows[w].workspace;
    var shown := SetActiveWorkspace(t, s);
    FocusStaysDefined(t, shown, s, w);
    FocusTakes(shown, s, w);
    ShowFocuses(t, w);
    hide SetActiveWorkspace, SetActiveWindow, SameLists, ActiveWindow;
  }

  lemma FloatRefocuses(t: Tree, w: Window, enable: bool, spare: Column)
    requires Inv(t) && IsPlaced(t, w) && spare !in t.columns
    ensures HasFocus(Float(t, w, enable, true, spare), w)
  {
    Pointers(t, w);
    var s := t.windows[w].workspace;
    hide Inv, FloatOn, FloatOff, OnlyMoves, ColumnsOk, Attached;
    var u := if enable then FloatOn(t, w) else FloatOff(t, w, spare);
    FocusPointers(u, s, w);
    FocusTakes(u, s, w);
    FocusKeepsLists(u, s, w);
    hide SetActiveWindow, ActiveWindow;
  }

  /** Floating or tiling a window does not cost it the focus, whatever becomes of a drag's destination on the way. */
  lemma FloatKeepsFocus(x: World, w: Window, enable: bool, spare: Column)
    requires InOrder(x) && IsPlaced(x.tree, w) && CanLeave(x) && spare !in x.tree.columns && HasFocus(x.tree, w)
    ensures HasFocus(FloatStep(x, w, enable, spare).tree, w)
  {
    hide Inv, Float, OnlyMoves, EndMouseOperation, ActiveWindow, CanLeave, OutputStays, Remembers;
    FloatRefocuses(EndMouseOperation(x, w).tree, w, enable, spare);
  }

  /** A window that moved in its workspace has the focus, and its workspace shows. */
  lemma MoveTakesFocus(t: Tree, w: Window, h: Heading, spare: Column)
    requires Inv(t) && IsPlaced(t, w) && IsTiled(t, w) && spare !in t.columns && CanCross(t, w, h) && Goes(t, w, h)
    ensures var u := Move(t, w, h, spare); HasFocus(u, w) && u.activeWorkspace == u.windows[w].workspace
  {
    hide Inv, MoveInDirection, Goes, Discard, OnlyMoves, SetFocusedWindow, HasFocus, CanShow, CanCross, ColumnsPersist;
    var moved := MoveInDirection(t, w, h, spare).0;
    MovedMoves(t, moved, w);
    var v := Discard(moved, t.windows[w].column);
    PlacedCanShow(v, w);
    FocusWindowTakes(v, w);
  }

  /** A dropped window has the focus, and its workspace shows, wherever its column hangs. */
  lemma DropTakesFocus(t: Tree, w: Window, c: Column, target: Window?)
    requires Inv(t) && CanDrop(t, w, c, target)
    ensures var u := Drop(t, w, c, target); HasFocus(u, w) && u.activeWorkspace == u.windows[w].workspace
  {
    DropDefined(t, w, c, target);
    hide Inv, DropInColumn, SetFocusedWindow, HasFocus, CanShow, CanDrop;
    FocusWindowTakes(DropInColumn(t, w, c, target), w);
  }

  // ---------------------------------------------------------------------
  // Neighbours
  // ---------------------------------------------------------------------

  /** When the active child goes, its neighbour above takes over, or the one below if it was the first. */
  lemma NeighbourTakesOver(t: Tree, w: Window, i: nat)
    requires Inv(t) && IsPlaced(t, w) && t.windows[w].column in t.columns
    requires i < |t.columns[t.windows[w].column].children| && t.columns[t.windows[w].column].children[i] == w
    ensures var c := t.windows[w].column;
            var children, u := t.columns[c].children, TakeOut(t, w);
            && u.columns[c].children == children[..i] + children[i + 1..]
            && (t.columns[c].activeChild != w ==> u.columns[c].activeChild == t.columns[c].activeChild)
            && (t.columns[c].activeChild == w ==>
                  u.columns[c].activeChild ==
                    if i > 0 then children[i - 1] else if |children| > 1 then children[1] else null)
  {
    var c := t.windows[w].column;
    assert ChildrenOk(t, c);
    Pointers(t, w);
    IndexIs(t.columns[c].children, i);
    NextActiveIs(t.columns[c], w, i);
  }

  lemma NextActiveIs(col: ColumnState, w: Window, i: nat)
    requires NoDuplicates(col.children) && i < |col.children| && col.children[i] == w
    ensures col.activeChild == w ==>
              NextActive(col, w) ==
                if i > 0 then col.children[i - 1] else if |col.children| > 1 then col.children[1] else null
  {
    IndexIs(col.children, i);
  }

  /** Where a window from another column comes to be. */
  function ArrivalIndex(col: ColumnState, direction: Option<Direction>): (i: nat)
    requires col.activeChild != null ==> col.activeChild in col.children
    ensures i <= |col.children|
  {
    if direction == Some(Down) then 0 else if direction == Some(Up) then |col.children| else BehindActive(col)
  }

  lemma Arrives(t: Tree, w: Window, c: Column, direction: Option<Direction>)
    requires Inv(t) && IsPlaced(t, w) && Attached(t, c) && t.windows[w].column != c && ChildrenOk(t, c)
    ensures var u := MoveToColumn(t, w, c, direction);
            c in u.columns
            && u.columns[c].children == Insert(t.columns[c].children, ArrivalIndex(t.columns[c], direction), w)
  {
    hide Inv, OnlyMoves, ColumnsPersist, TakeOut, Insert, BehindActive, NoDuplicates;
    var out := TakeOut(t, w);
    assert c in out.columns && out.columns[c] == t.columns[c];
  }

  lemma InsertedAt(children: seq<Window>, w: Window, i: nat)
    requires i <= |children|
    ensures i == 0 ==> Insert(children, i, w) == [w] + children
    ensures i == |children| ==> Insert(children, i, w) == children + [w]
    ensures Insert(children, i, w) == children[..i] + [w] + children[i..]
  {
  }

  lemma BehindActiveAt(col: ColumnState, k: nat)
    requires NoDuplicates(col.children) && k < |col.children| && col.children[k] == col.activeChild
    ensures BehindActive(col) == k + 1
  {
    IndexIs(col.children, k);
  }

  /** A window sent to another column comes right behind the active child there, unless it comes from above or below. */
  lemma ArrivesBehindActive(t: Tree, w: Window, c: Column, direction: Option<Direction>, k: nat)
    requires Inv(t) && IsPlaced(t, w) && Attached(t, c) && t.windows[w].column != c
    requires k < |t.columns[c].children| && t.columns[c].children[k] == t.columns[c].activeChild
    ensures var children, u := t.columns[c].children, MoveToColumn(t, w, c, direction);
            && c in u.columns
            && u.columns[c].children ==
                 if direction == Some(Down) then [w] + children
                 else if direction == Some(Up) then children + [w]
                 else children[..k + 1] + [w] + children[k + 1..]
  {
    assert ChildrenOk(t, c);
    BehindActiveAt(t.columns[c], k);
    hide Inv, MoveToColumn, OnlyMoves, ColumnsPersist, BehindActive, ChildrenOk, Attached, Insert;
    Arrives(t, w, c, direction);
    InsertedAt(t.columns[c].children, w, ArrivalIndex(t.columns[c], direction));
  }
}
