/**
 * The handlers that also know of the drag, on the objects: the seat's operation
 * of src/input/seatop_move.c, and the commands that end it. Whatever event is
 * handled, the objects move exactly as the world of TreeRuns.dfy does.
 */
module TreeHandlers {
  import opened Seqs
  import opened Tree
  import opened TreeInvariant
  import opened TreeSteps
  import opened TreeCommands
  import opened TreeDrags
  import opened TreeRuns
  import opened TreeOperations
  import opened TreeActions

  /** What the seat's move operation and the columns' previews remember. */
  class Seat {
    var drag: Option<Drag>
    var previews: map<Column, Window?>

    constructor ()
      ensures drag == None && previews == map[]
    {
      drag, previews := None, map[];
    }
  }

  ghost function WorldOf(root: Root, seat: Seat): World
    reads root, root.allWindows, root.allColumns, root.allWorkspaces, seat
  {
    World(root.State(), seat.drag, seat.previews)
  }

  lemma DestinationIs(x: World)
    requires InOrder(x) && CanLeave(x) && Destination(x) != null
    ensures Inv(x.tree) && CanConsider(x.tree, Destination(x)) && Destination(x) in x.tree.columns
    ensures x.tree.columns[Destination(x)].workspace in x.tree.workspaces
    ensures LeaveDestination(x) ==
              World(Discard(x.tree, Destination(x)), Some(x.drag.value.(destination := null)), x.previews - {Destination(x)})
  {
    hide Inv, Discard;
  }

  /** The drag leaves its destination, which may be destroyed. */
  method LeaveColumn(root: Root, seat: Seat)
    requires InOrder(WorldOf(root, seat)) && CanLeave(WorldOf(root, seat))
    modifies root, seat, root.allWorkspaces
    ensures root.allWindows == old(root.allWindows) && root.allColumns == old(root.allColumns)
    ensures root.allWorkspaces == old(root.allWorkspaces)
    ensures WorldOf(root, seat) == LeaveDestination(old(WorldOf(root, seat)))
  {
    hide InOrder, CanLeave, Inv, CanConsider, Discard;
    ghost var x := WorldOf(root, seat);
    if seat.drag.Some? && seat.drag.value.destination != null {
      var column := seat.drag.value.destination;
      DestinationIs(x);
      assert Destination(x) == column && x.tree.columns[column] == column.Value();
      hide LeaveDestination;
      seat.previews := seat.previews - {column};
      ColumnConsiderDestroy(root, column);
      seat.drag := Some(seat.drag.value.(destination := null));
    }
  }

  /** window_end_mouse_operation, as seatop_move's handle_unref answers it. */
  method HandleUnref(root: Root, seat: Seat, window: Window)
    requires InOrder(WorldOf(root, seat)) && CanLeave(WorldOf(root, seat))
    modifies root, seat, root.allWorkspaces
    ensures root.allWindows == old(root.allWindows) && root.allColumns == old(root.allColumns)
    ensures root.allWorkspaces == old(root.allWorkspaces)
    ensures WorldOf(root, seat) == EndMouseOperation(old(WorldOf(root, seat)), window)
  {
    hide InOrder, CanLeave, LeaveDestination;
    LeaveColumn(root, seat);
    if seat.drag.Some? && seat.drag.value.window == window {
      seat.drag := None;
    }
  }

  lemma InOrderMeans(x: World)
    requires InOrder(x)
    ensures Inv(x.tree)
  {
    hide Inv;
  }

  lemma StaysPlaced(x: World, w: Window)
    requires InOrder(x) && CanLeave(x) && IsPlaced(x.tree, w)
    ensures var y := EndMouseOperation(x, w); IsPlaced(y.tree, w) && Inv(y.tree) && y.tree.columns == x.tree.columns
  {
    hide Inv, EndMouseOperation, CanLeave;
  }

  method HandleUnmap(root: Root, seat: Seat, window: Window)
    requires InOrder(WorldOf(root, seat)) && CanLeave(WorldOf(root, seat)) && IsPlaced(root.State(), window)
    modifies root, seat, root.allWindows, root.allColumns, root.allWorkspaces
    ensures WorldOf(root, seat) == UnmapStep(old(WorldOf(root, seat)), window)
  {
    hide InOrder, CanLeave, EndMouseOperation, Inv, Unmap, OnlyMoves;
    StaysPlaced(WorldOf(root, seat), window);
    HandleUnref(root, seat, window);
    HandleSurfaceUnmap(root, window);
  }

  method CmdFloating(root: Root, seat: Seat, window: Window, enable: bool, spare: Column)
    requires InOrder(WorldOf(root, seat)) && CanLeave(WorldOf(root, seat)) && IsPlaced(root.State(), window)
    requires spare !in root.allColumns
    modifies root, seat, spare, root.allWindows, root.allColumns, root.allWorkspaces
    ensures WorldOf(root, seat) == FloatStep(old(WorldOf(root, seat)), window, enable, spare)
  {
    hide InOrder, CanLeave, EndMouseOperation, Inv, Float, OnlyMoves, Pointed;
    ghost var t := root.State();
    InOrderMeans(WorldOf(root, seat));
    Pointers(t, window);
    InvPointed(t);
    StaysPlaced(WorldOf(root, seat), window);
    var focused := WorkspaceGetActiveWindow(root, window.workspace);
    hide ActiveWindow, ColumnsOk, Attached;
    HandleUnref(root, seat, window);
    FloatOrTile(root, window, enable, focused == window, spare);
  }

  /** The tiling part of cmd_move_in_direction. */
  method MoveTiled(root: Root, window: Window, h: Heading, spare: Column) returns (moved: bool)
    requires Inv(root.State()) && IsPlaced(root.State(), window) && IsTiled(root.State(), window)
    requires spare !in root.allColumns && CanCross(root.State(), window, h)
    modifies root, spare, root.allWindows, root.allColumns, root.allWorkspaces
    ensures root.allWindows == old(root.allWindows) && root.allWorkspaces == old(root.allWorkspaces)
    ensures moved == Goes(old(root.State()), window, h)
    ensures root.State() == Move(old(root.State()), window, h, spare)
  {
    hide Inv, MoveInDirection, Goes, CanCross, Discard, FocusWindow, OnlyMoves, ColumnsPersist;
    ghost var t := root.State();
    Pointers(t, window);
    var oldColumn := window.column;
    moved := WindowTilingMoveInDirection(root, window, h, spare);
    if moved {
      StaysAttached(t, root.State(), oldColumn);
      TidyAndRefocus(root, window, oldColumn);
    }
  }

  lemma MovedInOrder(x: World, w: Window, h: Heading, spare: Column)
    requires InOrder(x) && IsPlaced(x.tree, w) && IsTiled(x.tree, w) && spare !in x.tree.columns
    requires CanCross(x.tree, w, h)
    ensures InOrder(x.(tree := Move(x.tree, w, h, spare)))
    ensures !Goes(x.tree, w, h) ==> Move(x.tree, w, h, spare) == x.tree
  {
    hide Inv, OnlyMoves, OutputStays, Goes, CanCross, Move;
    DragStays(x, Move(x.tree, w, h, spare), w);
  }

  /** cmd_move_in_direction: of a floating window only the coordinates change. */
  method CmdMoveInDirection(root: Root, seat: Seat, window: Window, h: Heading, spare: Column)
    requires InOrder(WorldOf(root, seat)) && IsPlaced(root.State(), window) && spare !in root.allColumns
    requires CanMove(WorldOf(root, seat), window, h, spare)
    modifies root, seat, spare, root.allWindows, root.allColumns, root.allWorkspaces
    ensures WorldOf(root, seat) == MoveStep(old(WorldOf(root, seat)), window, h, spare)
  {
    hide InOrder, CanLeave, EndMouseOperation, Inv, Move, Goes, CanCross, OnlyMoves;
    InOrderMeans(WorldOf(root, seat));
    if window.column != null {
      MovedInOrder(WorldOf(root, seat), window, h, spare);
      var moved := MoveTiled(root, window, h, spare);
      if moved {
        HandleUnref(root, seat, window);
      }
    }
  }

  /** The window floats at once, and has no destination yet. */
  method BeginDrag(root: Root, seat: Seat, window: Window)
    requires InOrder(WorldOf(root, seat)) && IsPlaced(root.State(), window)
    modifies root, seat, root.allWindows, root.allColumns, root.allWorkspaces
    ensures WorldOf(root, seat) == DragStep(old(WorldOf(root, seat)), window)
  {
    hide InOrder, Inv, DragDetach, OnlyMoves;
    InOrderMeans(WorldOf(root, seat));
    DoDetach(root, window);
    seat.drag := Some(Drag(window, null));
  }

  method HoverOverColumn(root: Root, seat: Seat, column: Column)
    requires InOrder(WorldOf(root, seat)) && seat.drag.Some? && Attached(root.State(), column)
    modifies seat
    ensures WorldOf(root, seat) == HoverStep(old(WorldOf(root, seat)), column)
  {
    hide InOrder, Attached, OnlyMoves;
    if column !in seat.previews {
      seat.previews := seat.previews[column := null];
    }
    seat.drag := Some(seat.drag.value.(destination := column));
  }

  method HoverOverEdge(root: Root, seat: Seat, workspace: Workspace, output: Option<nat>, index: nat, spare: Column)
    requires InOrder(WorldOf(root, seat)) && seat.drag.Some? && spare !in root.allColumns
    requires workspace in root.workspaces && workspace in root.allWorkspaces && output.Some?
    requires index <= |workspace.columns|
    modifies root, seat, workspace, spare
    ensures WorldOf(root, seat) == PlaceholderStep(old(WorldOf(root, seat)), workspace, output, index, spare)
  {
    hide InOrder, Inv, NewColumn, OnlyMoves, ColumnsPersist, Insert, Attached, OutputStays;
    InOrderMeans(WorldOf(root, seat));
    InsertNewColumn(root, workspace, output, index, spare);
    HoverOverNew(root, seat, spare);
  }

  method HoverOverNew(root: Root, seat: Seat, column: Column)
    requires seat.drag.Some?
    modifies seat
    ensures root.State() == old(root.State())
    ensures seat.previews == old(seat.previews)[column := null]
    ensures seat.drag == Some(old(seat.drag).value.(destination := column))
  {
    seat.previews := seat.previews[column := null];
    seat.drag := Some(seat.drag.value.(destination := column));
  }

  /** finalize_move. */
  method FinalizeMove(root: Root, seat: Seat)
    requires InOrder(WorldOf(root, seat)) && seat.drag.Some?
    requires var x := WorldOf(root, seat);
             var c := Destination(x); c != null ==> CanDrop(x.tree, x.drag.value.window, c, Target(x, c))
    modifies root, seat, root.allWindows, root.allColumns, root.allWorkspaces
    ensures WorldOf(root, seat) == DropStep(old(WorldOf(root, seat)))
  {
    hide InOrder, Inv, Drop, CanDrop, OnlyMoves;
    InOrderMeans(WorldOf(root, seat));
    var window, column := seat.drag.value.window, seat.drag.value.destination;
    if column != null {
      var target := if column in seat.previews then seat.previews[column] else null;
      DropOnColumn(root, window, column, target);
      seat.previews := seat.previews - {column};
    }
    seat.drag := None;
  }

  /** The memory an event may claim. */
  function Claimed(e: Event): set<object> {
    match e
    case WindowMaps(w, _, _, _, spare) => {w, spare}
    case FloatCommand(_, _, spare) => {spare}
    case MoveCommand(_, _, spare) => {spare}
    case MoveToWorkspaceCommand(_, _, spare) => {spare}
    case WorkspaceCreated(s) => {s}
    case DragShowsColumn(_, _, _, spare) => {spare}
    case _ => {}
  }

  /** The events that only the tree takes note of. */
  method HandlePlain(root: Root, e: Event, ghost x: World)
    requires InOrder(x) && x.tree == root.State() && Admissible(x, e) && IsPlain(e)
    modifies root, Claimed(e), root.allWindows, root.allColumns, root.allWorkspaces
    ensures root.State() == TreeStep(x, e)
  {
    hide Inv, Map, SendToWorkspace, Switch, FocusWindow, Focus, OnlyMoves, ColumnsPersist, CanMap, Pointed, CanShow;
    hide DragOk, SetFocusedWindow, SetActiveWindow, SetActiveWorkspace, FocusDefined, SwitchDefined, Remembers, OutputStays;
    match e
    case WindowMaps(w, floating, output, focus, spare) => HandleSurfaceMap(root, w, floating, output, focus, spare);
    case MoveToWorkspaceCommand(w, s, spare) => CmdMoveWindow(root, w, s, spare);
    case WorkspaceCreated(s) => WorkspaceCreate(root, s);
    case WorkspaceSwitched(s) =>
      SwitchIs(x.tree, s);
      RootSetActiveWorkspace(root, s);
    case WindowFocused(w) =>
      FocusWindowIs(x.tree, w);
      RootSetFocusedWindow(root, w);
    case FocusedInWorkspace(s, w) =>
      FocusIs(x.tree, s, w);
      WorkspaceSetActiveWindow(root, s, w);
    case WindowRaised(w) =>
      RaiseKeeps(x.tree, w);
      WindowRaiseFloating(root, w);
    case OutputEnabled(output) =>
      if root.activeOutput.None? {
        RootSetActiveOutput(root, Some(output));
      }
  }

  /** The events of the drag. */
  method HandleDragging(root: Root, seat: Seat, e: Event)
    requires InOrder(WorldOf(root, seat)) && Admissible(WorldOf(root, seat), e) && Proceeds(WorldOf(root, seat), e)
    requires IsOfDrag(e)
    modifies root, seat, Claimed(e), root.allWindows, root.allColumns, root.allWorkspaces
    ensures WorldOf(root, seat) == Dragging(old(WorldOf(root, seat)), e)
  {
    hide InOrder, CanLeave, CanDrop, Attached, DragStep, HoverStep, PlaceholderStep, DropStep, LeaveDestination, OnlyMoves;
    match e
    case DragStarts(w) => BeginDrag(root, seat, w);
    case DragOverColumn(c) => HoverOverColumn(root, seat, c);
    case DragShowsColumn(s, output, i, spare) => HoverOverEdge(root, seat, s, output, i, spare);
    case PreviewArranged(c, target) => seat.previews := seat.previews[c := target];
    case DragLeavesColumn => LeaveColumn(root, seat);
    case DragEnds => FinalizeMove(root, seat);
  }

  /** Whatever happens, the objects move exactly as the picture does. */
  method HandleEvent(root: Root, seat: Seat, e: Event)
    requires InOrder(WorldOf(root, seat)) && Admissible(WorldOf(root, seat), e) && Proceeds(WorldOf(root, seat), e)
    modifies root, seat, Claimed(e), root.allWindows, root.allColumns, root.allWorkspaces
    ensures WorldOf(root, seat) == Step(old(WorldOf(root, seat)), e)
  {
    hide InOrder, CanLeave, CanDrop, Attached, TreeStep, UnmapStep, FloatStep, MoveStep, Dragging, OnlyMoves, CanMove;
    if IsPlain(e) {
      HandlePlain(root, e, WorldOf(root, seat));
    } else if IsOfDrag(e) {
      HandleDragging(root, seat, e);
    } else {
      match e
      case WindowUnmaps(w) => HandleUnmap(root, seat, w);
      case FloatCommand(w, enable, spare) => CmdFloating(root, seat, w, enable, spare);
      case MoveCommand(w, h, spare) => CmdMoveInDirection(root, seat, w, h, spare);
      case OutputEntered(output) => RootSetActiveOutput(root, Some(output));
    }
  }
}
