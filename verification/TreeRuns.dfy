/**
 * Runs of the commands and client events on the window tree, with the pointer
 * drag under way. A drop into a column that meanwhile left its workspace is the
 * one event that puts the tree out of order, and a few may fail an assertion on
 * the way; Sound says exactly when, and every other run stays in order.
 */
module TreeRuns {
  import opened Seqs
  import opened Tree
  import opened TreeInvariant
  import opened TreeSteps
  import opened TreeCommands
  import opened TreeDrags

  datatype Event =
    | WindowMaps(window: Window, floating: bool, output: Option<nat>, focus: bool, spare: Column)
    | WindowUnmaps(window: Window)
    | FloatCommand(window: Window, enable: bool, spare: Column)
    | MoveCommand(window: Window, heading: Heading, spare: Column)
    | MoveToWorkspaceCommand(window: Window, workspace: Workspace, spare: Column)
    | WorkspaceCreated(workspace: Workspace)
    | WorkspaceSwitched(workspace: Workspace)
    | WindowFocused(window: Window)
    | FocusedInWorkspace(workspace: Workspace, target: Window?)
    | WindowRaised(window: Window)
    | OutputEnabled(number: nat)
    | OutputEntered(number: nat)
    | DragStarts(window: Window)
    | DragOverColumn(column: Column)
    | DragShowsColumn(workspace: Workspace, place: Option<nat>, index: nat, spare: Column)
    | PreviewArranged(column: Column, target: Window?)
    | DragLeavesColumn
    | DragEnds

  /**
   * What the callers see to before they raise the event, and what they assert
   * of anything but the drag's destination. A column is hovered over when it is
   * found in a workspace, and a preview is arranged for the children that the
   * column has then.
   */
  ghost predicate Admissible(x: World, e: Event) {
    var t := x.tree;
    match e
    case WindowMaps(w, floating, output, _, spare) => CanMap(t, w, floating, output) && spare !in t.columns
    case WindowUnmaps(w) => IsPlaced(t, w)
    case FloatCommand(w, _, spare) => IsPlaced(t, w) && spare !in t.columns
    case MoveCommand(w, _, spare) => IsPlaced(t, w) && spare !in t.columns
    case MoveToWorkspaceCommand(w, s, spare) => IsPlaced(t, w) && s in t.listed && spare !in t.columns
    case WorkspaceCreated(s) => s !in t.workspaces
    case WorkspaceSwitched(s) => s in t.listed
    case WindowFocused(w) => IsPlaced(t, w)
    case FocusedInWorkspace(s, w) => CanFocus(t, s, w)
    case WindowRaised(w) => w in t.windows
    case OutputEnabled(_) => true
    case OutputEntered(_) => true
    case DragStarts(w) => IsPlaced(t, w)
    case DragOverColumn(c) => x.drag.Some? && Destination(x) == null && Attached(t, c)
    case DragShowsColumn(s, output, i, spare) =>
      && x.drag.Some? && Destination(x) == null
      && s in t.listed && s in t.workspaces && output.Some? && i <= |t.workspaces[s].columns| && spare !in t.columns
    case PreviewArranged(c, target) =>
      c in x.previews && Attached(t, c) && (target != null ==> target in t.columns[c].children)
    case DragLeavesColumn => Destination(x) != null
    case DragEnds => x.drag.Some?
  }

  /**
   * The assertions of column_consider_destroy and column_add_sibling about the
   * drag's destination, where they stand, and the active column whose output a
   * move beyond the edge asks for.
   */
  ghost predicate Proceeds(x: World, e: Event)
    requires InOrder(x) && Admissible(x, e)
  {
    match e
    case WindowUnmaps(_) => CanLeave(x)
    case FloatCommand(_, _, _) => CanLeave(x)
    case DragLeavesColumn => CanLeave(x)
    case MoveCommand(w, h, spare) => CanMove(x, w, h, spare)
    case DragEnds =>
      var c := Destination(x); c != null ==> CanDrop(x.tree, x.drag.value.window, c, Target(x, c))
    case _ => true
  }

  ghost predicate CanMove(x: World, w: Window, h: Heading, spare: Column)
    requires Inv(x.tree) && IsPlaced(x.tree, w) && spare !in x.tree.columns
  {
    IsTiled(x.tree, w) ==>
      && CanCross(x.tree, w, h)
      && (Goes(x.tree, w, h) ==> CanLeave(x.(tree := Move(x.tree, w, h, spare))))
  }

  function EnableOutput(t: Tree, output: nat): Tree {
    if t.activeOutput.None? then t.(activeOutput := Some(output)) else t
  }

  /** The tree with another active output: root_set_active_output. */
  function EnterOutput(t: Tree, output: nat): Tree { t.(activeOutput := Some(output)) }

  lemma SetOutputKeeps(t: Tree, output: Option<nat>)
    requires Inv(t)
    ensures Inv(t.(activeOutput := output))
  {
    var u := t.(activeOutput := output);
    hide ChildrenLinked, ColumnsLinked, FloatingLinked, WindowsLinked;
    ChildrenStayLinked(t, u);
    ColumnsStayLinked(t, u);
    FloatingStaysLinked(t, u);
    WindowsStayLinked(t, u);
  }

  // ---------------------------------------------------------------------
  // One event
  // ---------------------------------------------------------------------

  function UnmapStep(x: World, w: Window): (y: World)
    requires InOrder(x) && IsPlaced(x.tree, w) && CanLeave(x)
    ensures InOrder(y) && OnlyMoves(x.tree, y.tree, w)
  {
    hide Inv, OnlyMoves, Unmap, OutputStays;
    var left := EndMouseOperation(x, w);
    var u := Unmap(left.tree, w);
    NoneMoves(x.tree, left.tree, w);
    MovesAfterMoves(x.tree, left.tree, u, w);
    DragStays(left, u, w);
    left.(tree := u)
  }

  /** Whether the window has the focus is found out before the drag is told. */
  function FloatStep(x: World, w: Window, enable: bool, spare: Column): (y: World)
    requires InOrder(x) && IsPlaced(x.tree, w) && CanLeave(x) && spare !in x.tree.columns
    ensures InOrder(y) && OnlyMoves(x.tree, y.tree, w)
  {
    Pointers(x.tree, w);
    var focused := ActiveWindow(x.tree, x.tree.windows[w].workspace) == w;
    hide Inv, OnlyMoves, Float, OutputStays, ActiveWindow;
    var left := EndMouseOperation(x, w);
    var u := Float(left.tree, w, enable, focused, spare);
    NoneMoves(x.tree, left.tree, w);
    MovesAfterMoves(x.tree, left.tree, u, w);
    DragStays(left, u, w);
    left.(tree := u)
  }

  /** A floating window only changes its coordinates. The drag is told last, if a tiled window moved. */
  function MoveStep(x: World, w: Window, h: Heading, spare: Column): (y: World)
    requires InOrder(x) && IsPlaced(x.tree, w) && spare !in x.tree.columns && CanMove(x, w, h, spare)
    ensures InOrder(y) && OnlyMoves(x.tree, y.tree, w)
  {
    hide Inv, OnlyMoves, Move, OutputStays, Goes, CanLeave, CanCross;
    Unmoved(x.tree, w);
    if !IsTiled(x.tree, w) || !Goes(x.tree, w, h) then x
    else
      var u := Move(x.tree, w, h, spare);
      DragStays(x, u, w);
      var y := EndMouseOperation(x.(tree := u), w);
      NoneMoves(u, y.tree, w);
      MovesAfterMoves(x.tree, u, y.tree, w);
      y
  }

  /** do_detach, for the drag that now begins. */
  function DragStep(x: World, w: Window): (y: World)
    requires InOrder(x) && IsPlaced(x.tree, w)
    ensures InOrder(y) && OnlyMoves(x.tree, y.tree, w)
  {
    hide Inv, OnlyMoves;
    World(DragDetach(x.tree, w), Some(Drag(w, null)), x.previews)
  }

  function HoverStep(x: World, c: Column): (y: World)
    requires InOrder(x) && x.drag.Some? && Attached(x.tree, c)
    ensures InOrder(y) && OnlyMoves(x.tree, y.tree, null)
  {
    hide Inv, OnlyMoves;
    Unmoved(x.tree, null);
    World(x.tree, Some(x.drag.value.(destination := c)), x.previews[c := Target(x, c)])
  }

  /** A placeholder column becomes the destination. */
  function PlaceholderStep(x: World, s: Workspace, output: Option<nat>, i: nat, spare: Column): (y: World)
    requires InOrder(x) && x.drag.Some? && spare !in x.tree.columns
    requires s in x.tree.listed && s in x.tree.workspaces && output.Some? && i <= |x.tree.workspaces[s].columns|
    ensures InOrder(y) && OnlyMoves(x.tree, y.tree, null)
  {
    hide Inv, OutputStays;
    var u := NewColumn(x.tree, s, output, i, spare);
    World(u, Some(x.drag.value.(destination := spare)), x.previews[spare := null])
  }

  /** finalize_move: the window stays where it floats, or joins the destination, or the column of the preview's target. */
  function DropStep(x: World): (y: World)
    requires InOrder(x) && x.drag.Some?
    requires var c := Destination(x); c != null ==> CanDrop(x.tree, x.drag.value.window, c, Target(x, c))
    ensures OnlyMoves(x.tree, y.tree, x.drag.value.window) && y.drag.None?
  {
    var w, c := x.drag.value.window, Destination(x);
    Unmoved(x.tree, w);
    if c == null then x.(drag := None)
    else
      DropLands(x.tree, w, c, Target(x, c));
      hide *;
      World(Drop(x.tree, w, c, Target(x, c)), None, x.previews - {c})
  }

  /** The window an event is about, if it may move one. */
  function Mover(x: World, e: Event): Window? {
    match e
    case WindowMaps(w, _, _, _, _) => w
    case WindowUnmaps(w) => w
    case FloatCommand(w, _, _) => w
    case MoveCommand(w, _, _) => w
    case MoveToWorkspaceCommand(w, _, _) => w
    case DragStarts(w) => w
    case DragEnds => if x.drag.Some? then x.drag.value.window else null
    case _ => null
  }

  /** The events that only the tree takes note of. */
  predicate IsPlain(e: Event) {
    match e
    case WindowMaps(_, _, _, _, _) => true
    case MoveToWorkspaceCommand(_, _, _) => true
    case WorkspaceCreated(_) => true
    case WorkspaceSwitched(_) => true
    case WindowFocused(_) => true
    case FocusedInWorkspace(_, _) => true
    case WindowRaised(_) => true
    case OutputEnabled(_) => true
    case _ => false
  }

  lemma CreatedWorkspaceMoves(t: Tree, s: Workspace)
    requires s !in t.workspaces
    ensures OnlyMoves(t, CreateWorkspace(t, s), null) && ColumnsPersist(t, CreateWorkspace(t, s))
  {
  }

  lemma EnabledMoves(t: Tree, output: nat)
    requires Inv(t)
    ensures Inv(EnableOutput(t, output)) && OnlyMoves(t, EnableOutput(t, output), null)
    ensures ColumnsPersist(t, EnableOutput(t, output))
  {
    SetOutputKeeps(t, Some(output));
    if t.activeWorkspace != null {
      ActiveIsListed(t);
    }
  }

  lemma RaisedMoves(t: Tree, w: Window)
    requires Inv(t) && w in t.windows
    ensures WindowOk(t, w) && Inv(Raise(t, w)) && OnlyMoves(t, Raise(t, w), null) && ColumnsPersist(t, Raise(t, w))
  {
    RaiseMoves(t, w);
  }

  /** What a plain event makes of the tree. */
  function TreeStep(x: World, e: Event): (u: Tree)
    requires InOrder(x) && Admissible(x, e) && IsPlain(e)
    ensures Inv(u) && OnlyMoves(x.tree, u, Mover(x, e))
    ensures if e.MoveToWorkspaceCommand?
            then IsPlaced(u, e.window) && (u.windows[e.window].column == null <==> x.tree.windows[e.window].column == null)
            else ColumnsPersist(x.tree, u)
  {
    var t := x.tree;
    hide Inv, OnlyMoves, Remembers, OutputStays, Map, SendToWorkspace, Switch, FocusWindow, Focus, SameLists, DragOk, CanMap;
    hide ColumnsPersist;
    match e
    case WindowMaps(w, floating, output, focus, spare) => Map(t, w, floating, output, focus, spare)
    case MoveToWorkspaceCommand(w, s, spare) => SendToWorkspace(t, w, s, spare)
    case WorkspaceCreated(s) => CreateWorkspaceKeeps(t, s); CreatedWorkspaceMoves(t, s); CreateWorkspace(t, s)
    case WorkspaceSwitched(s) => SwitchMoves(t, s); Switch(t, s)
    case WindowFocused(w) => FocusWindowMoves(t, w); FocusWindow(t, w)
    case FocusedInWorkspace(s, w) => FocusMoves(t, s, w); Focus(t, s, w)
    case WindowRaised(w) => RaisedMoves(t, w); Raise(t, w)
    case OutputEnabled(output) => EnabledMoves(t, output); EnableOutput(t, output)
  }

  lemma SwitchMoves(t: Tree, s: Workspace)
    requires Inv(t) && s in t.listed
    ensures OnlyMoves(t, Switch(t, s), null) && ColumnsPersist(t, Switch(t, s))
  {
    hide Inv, OutputStays, Switch;
  }

  lemma FocusWindowMoves(t: Tree, w: Window)
    requires Inv(t) && IsPlaced(t, w)
    ensures OnlyMoves(t, FocusWindow(t, w), null) && ColumnsPersist(t, FocusWindow(t, w))
  {
    hide Inv, OutputStays, FocusWindow;
  }

  lemma FocusMoves(t: Tree, s: Workspace, w: Window?)
    requires Inv(t) && CanFocus(t, s, w)
    ensures OnlyMoves(t, Focus(t, s, w), null) && ColumnsPersist(t, Focus(t, s, w))
  {
    hide Inv, OutputStays, Focus;
  }

  /** A plain event leaves the dragged window floating where it may be. */
  lemma PlainKeepsDrag(x: World, e: Event)
    requires InOrder(x) && Admissible(x, e) && IsPlain(e)
    ensures InOrder(x.(tree := TreeStep(x, e)))
  {
    hide Inv, TreeStep, OutputStays;
    if x.drag.Some? && Mover(x, e) == x.drag.value.window {
      assert e.MoveToWorkspaceCommand?;
    }
  }

  function EnterStep(x: World, output: nat): (y: World)
    requires InOrder(x)
    ensures InOrder(y) && y.tree == EnterOutput(x.tree, output)
  {
    SetOutputKeeps(x.tree, Some(output));
    hide Inv;
    x.(tree := EnterOutput(x.tree, output))
  }

  function ArrangeStep(x: World, c: Column, target: Window?): (y: World)
    requires InOrder(x)
    ensures InOrder(y) && OnlyMoves(x.tree, y.tree, null)
  {
    hide Inv, OnlyMoves;
    Unmoved(x.tree, null);
    x.(previews := x.previews[c := target])
  }

  function LeaveStep(x: World): (y: World)
    requires InOrder(x) && CanLeave(x)
    ensures InOrder(y) && OnlyMoves(x.tree, y.tree, null)
  {
    hide Inv, OnlyMoves, LeaveDestination;
    var y := LeaveDestination(x);
    NoneMoves(x.tree, y.tree, null);
    y
  }

  /** The events of the drag itself. */
  predicate IsOfDrag(e: Event) {
    match e
    case DragStarts(_) => true
    case DragOverColumn(_) => true
    case DragShowsColumn(_, _, _, _) => true
    case PreviewArranged(_, _) => true
    case DragLeavesColumn => true
    case DragEnds => true
    case _ => false
  }

  function Dragging(x: World, e: Event): (y: World)
    requires InOrder(x) && Admissible(x, e) && Proceeds(x, e) && IsOfDrag(e)
    ensures (!e.DragEnds? ==> InOrder(y)) && OnlyMoves(x.tree, y.tree, Mover(x, e))
  {
    hide Inv, OnlyMoves, DragStep, HoverStep, PlaceholderStep, DropStep, ArrangeStep, LeaveStep;
    hide InOrder, Attached, CanDrop;
    match e
    case DragStarts(w) => DragStep(x, w)
    case DragOverColumn(c) => HoverStep(x, c)
    case DragShowsColumn(s, output, i, spare) => PlaceholderStep(x, s, output, i, spare)
    case PreviewArranged(c, target) => ArrangeStep(x, c, target)
    case DragLeavesColumn => LeaveStep(x)
    case DragEnds => DropStep(x)
  }

  function Step(x: World, e: Event): (y: World)
    requires InOrder(x) && Admissible(x, e) && Proceeds(x, e)
    ensures !e.DragEnds? ==> InOrder(y)
    ensures if e.OutputEntered? then y.tree == EnterOutput(x.tree, e.number) else OnlyMoves(x.tree, y.tree, Mover(x, e))
  {
    hide Inv, OnlyMoves, TreeStep, UnmapStep, FloatStep, MoveStep, EnterStep, Dragging, InOrder, CanMove, CanDrop, Attached;
    if IsPlain(e) then PlainKeepsDrag(x, e); x.(tree := TreeStep(x, e))
    else if IsOfDrag(e) then Dragging(x, e)
    else match e
      case WindowUnmaps(w) => UnmapStep(x, w)
      case FloatCommand(w, enable, spare) => FloatStep(x, w, enable, spare)
      case MoveCommand(w, h, spare) => MoveStep(x, w, h, spare)
      case OutputEntered(output) => EnterStep(x, output)
  }

  // ---------------------------------------------------------------------
  // When an event is sound
  // ---------------------------------------------------------------------

  /**
   * Where the destination of the drag, if it has one, must be for the event to
   * go well: it hangs in its workspace or has children; it is not about to lose
   * its only child to a move that ends the drag; and a drop finds its target in
   * a column, or a destination that hangs. Besides, a move beyond the edge finds
   * an active column.
   */
  ghost predicate Sound(x: World, e: Event)
    requires InOrder(x) && Admissible(x, e)
  {
    var t, c := x.tree, Destination(x);
    && (e.MoveCommand? && IsTiled(t, e.window) ==> CanCross(t, e.window, e.heading))
    && (c != null ==>
          match e
          case WindowUnmaps(_) => CanConsider(t, c)
          case FloatCommand(_, _, _) => CanConsider(t, c)
          case DragLeavesColumn => CanConsider(t, c)
          case MoveCommand(w, h, _) =>
            IsTiled(t, w) && Goes(t, w, h) ==>
              CanConsider(t, c) && !(c == t.windows[w].column && t.columns[c].children == [w] && Departs(t, w, h))
          case DragEnds => if Target(x, c) == null then Attached(t, c) else IsTiled(t, Target(x, c))
          case _ => true)
  }

  /** An event passes all assertions and leaves the tree in order if and only if it is sound. */
  lemma StepKeeps(x: World, e: Event)
    requires InOrder(x) && Admissible(x, e)
    ensures Proceeds(x, e) && InOrder(Step(x, e)) <==> Sound(x, e)
  {
    hide Inv, Move, Goes, Departs, CanCross, CanConsider, CanDrop, Attached;
    match e
    case MoveCommand(w, h, spare) =>
      if Destination(x) != null && IsTiled(x.tree, w) && CanCross(x.tree, w, h) && Goes(x.tree, w, h) {
        MoveIsSound(x, w, h, spare);
      }
    case DragEnds =>
      if Destination(x) != null {
        DropIsSound(x);
      }
    case _ =>
  }

  lemma MoveIsSound(x: World, w: Window, h: Heading, spare: Column)
    requires InOrder(x) && Destination(x) != null && spare !in x.tree.columns
    requires IsPlaced(x.tree, w) && IsTiled(x.tree, w) && CanCross(x.tree, w, h) && Goes(x.tree, w, h)
    ensures var t, c := x.tree, Destination(x);
            && c in t.columns
            && (CanLeave(x.(tree := Move(t, w, h, spare)))
                <==> CanConsider(t, c) && !(c == t.windows[w].column && t.columns[c].children == [w] && Departs(t, w, h)))
  {
    hide Inv, Move, Goes, CanConsider, OnlyMoves, Departs, CanCross;
    MoveLeaves(x.tree, w, h, spare, Destination(x));
  }

  lemma DropIsSound(x: World)
    requires InOrder(x) && Destination(x) != null
    ensures var t, w, c := x.tree, x.drag.value.window, Destination(x);
            var target := Target(x, c);
            && (CanDrop(t, w, c, target) <==> target != null ==> IsTiled(t, target))
            && (CanDrop(t, w, c, target) ==> (InOrder(DropStep(x)) <==> target != null || Attached(t, c)))
  {
    var w, c := x.drag.value.window, Destination(x);
    hide Inv, Drop, Attached;
    if CanDrop(x.tree, w, c, Target(x, c)) {
      DropKeepsOrder(x.tree, w, c, Target(x, c));
    }
  }

  // ---------------------------------------------------------------------
  // Runs
  // ---------------------------------------------------------------------

  /** Every event is one its caller may raise in the state it finds, as long as things are in order. */
  ghost predicate IsRun(x: World, events: seq<Event>)
    requires InOrder(x)
    decreases |events|
  {
    events == [] ||
    (Admissible(x, events[0]) &&
     (Proceeds(x, events[0]) && InOrder(Step(x, events[0])) ==> IsRun(Step(x, events[0]), events[1..])))
  }

  /** The state after the events, unless an assertion failed or the tree got out of order on the way. */
  ghost function Run(x: World, events: seq<Event>): (r: Option<World>)
    requires InOrder(x)
    ensures r.Some? ==> InOrder(r.value)
    decreases |events|
  {
    if events == [] then Some(x)
    else if Admissible(x, events[0]) && Proceeds(x, events[0]) && InOrder(Step(x, events[0]))
    then Run(Step(x, events[0]), events[1..])
    else None
  }

  lemma RunOfOne(x: World, e: Event)
    requires InOrder(x) && Admissible(x, e)
    ensures IsRun(x, [e]) && Run(x, [e]) == if Sound(x, e) && Proceeds(x, e) then Some(Step(x, e)) else None
  {
    StepKeeps(x, e);
    hide Proceeds, Step, Sound, InOrder, Admissible, IsRun, Run;
    if Sound(x, e) {
      RunOfNone(Step(x, e));
    }
    RunUnfolds(x, [e]);
    assert [e][1..] == [];
  }

  lemma RunOfNone(x: World)
    requires InOrder(x)
    ensures IsRun(x, []) && Run(x, []) == Some(x)
  {
  }

  lemma RunUnfolds(x: World, events: seq<Event>)
    requires InOrder(x) && events != [] && Admissible(x, events[0])
    ensures IsRun(x, events) <==>
              (Proceeds(x, events[0]) && InOrder(Step(x, events[0])) ==> IsRun(Step(x, events[0]), events[1..]))
    ensures Run(x, events) ==
              if Proceeds(x, events[0]) && InOrder(Step(x, events[0])) then Run(Step(x, events[0]), events[1..]) else None
  {
    hide Proceeds, Step, InOrder, Admissible;
  }

  lemma {:induction false} RunExtends(x: World, events: seq<Event>, e: Event)
    requires InOrder(x) && IsRun(x, events) && Run(x, events).Some? && Admissible(Run(x, events).value, e)
    ensures IsRun(x, events + [e])
    ensures var y := Run(x, events).value;
            Run(x, events + [e]) == if Sound(y, e) && Proceeds(y, e) then Some(Step(y, e)) else None
    decreases |events|
  {
    hide Proceeds, Step, Sound, InOrder, Admissible;
    var all := events + [e];
    if events == [] {
      assert all == [e];
      RunOfOne(x, e);
    } else {
      assert all[0] == events[0] && all[1..] == events[1..] + [e];
      RunExtends(Step(x, events[0]), events[1..], e);
    }
  }

  // ---------------------------------------------------------------------
  // Histories: the runs from the very beginning
  // ---------------------------------------------------------------------

  lemma BeginsInOrder()
    ensures InOrder(BEGIN)
  {
    EmptyTree();
  }

  ghost predicate IsHistory(events: seq<Event>) {
    BeginsInOrder();
    IsRun(BEGIN, events)
  }

  ghost function After(events: seq<Event>): (r: Option<World>)
    ensures r.Some? ==> InOrder(r.value)
  {
    BeginsInOrder();
    Run(BEGIN, events)
  }

  /** The events lead from the very beginning to this state. */
  ghost predicate Leads(events: seq<Event>, x: World) {
    IsHistory(events) && After(events) == Some(x)
  }

  lemma LeadsInOrder(events: seq<Event>, x: World)
    requires Leads(events, x)
    ensures InOrder(x)
  {
    hide InOrder;
  }

  lemma LeadsNowhere()
    ensures Leads([], BEGIN)
  {
  }

  lemma LeadsOn(events: seq<Event>, x: World, e: Event)
    requires Leads(events, x) && Admissible(x, e) && Sound(x, e)
    ensures Proceeds(x, e) && Leads(events + [e], Step(x, e))
  {
    StepKeeps(x, e);
    hide Proceeds, Step, Sound, InOrder, Admissible;
    BeginsInOrder();
    RunExtends(BEGIN, events, e);
  }

  lemma LeadsAstray(events: seq<Event>, x: World, e: Event)
    requires Leads(events, x) && Admissible(x, e) && !Sound(x, e)
    ensures IsHistory(events + [e]) && After(events + [e]) == None
  {
    hide Proceeds, Step, Sound, InOrder, Admissible;
    BeginsInOrder();
    RunExtends(BEGIN, events, e);
  }

  // ---------------------------------------------------------------------
  // What goes wrong
  // ---------------------------------------------------------------------

  /** The n-th event comes when things are in order, and is not sound. */
  ghost predicate BreaksAt(x: World, events: seq<Event>, n: nat)
    requires InOrder(x) && n < |events|
  {
    && Run(x, events[..n]).Some?
    && var y := Run(x, events[..n]).value; Admissible(y, events[n]) && !Sound(y, events[n])
  }

  lemma BreaksLater(x: World, events: seq<Event>, n: nat)
    requires InOrder(x) && n + 1 < |events| && Admissible(x, events[0]) && Proceeds(x, events[0])
    requires InOrder(Step(x, events[0]))
    ensures BreaksAt(x, events, n + 1) <==> BreaksAt(Step(x, events[0]), events[1..], n)
  {
    hide Proceeds, Step, Sound, InOrder, Admissible;
    assert events[..n + 1][1..] == events[1..][..n];
  }

  lemma BreaksFirst(x: World, events: seq<Event>)
    requires InOrder(x) && events != [] && Admissible(x, events[0])
    ensures BreaksAt(x, events, 0) <==> !Sound(x, events[0])
  {
    hide Proceeds, Step, Sound, InOrder, Admissible;
  }

  /** A run goes wrong if and only if it meets an event that is not sound. */
  lemma {:induction false} RunBreaks(x: World, events: seq<Event>)
    requires InOrder(x) && IsRun(x, events)
    ensures Run(x, events).None? <==> exists n :: 0 <= n < |events| && BreaksAt(x, events, n)
    decreases |events|
  {
    hide Proceeds, Step, Sound, InOrder, Admissible, BreaksAt;
    if events != [] {
      var e, rest := events[0], events[1..];
      StepKeeps(x, e);
      BreaksFirst(x, events);
      if Sound(x, e) {
        RunBreaks(Step(x, e), rest);
        forall n | 0 <= n < |rest|
          ensures BreaksAt(x, events, n + 1) <==> BreaksAt(Step(x, e), rest, n)
        {
          BreaksLater(x, events, n);
        }
        if n :| 0 <= n < |events| && BreaksAt(x, events, n) {
          assert BreaksAt(Step(x, e), rest, n - 1);
        }
      }
    }
  }

  // ---------------------------------------------------------------------
  // Careful runs
  // ---------------------------------------------------------------------

  /** The destination hangs in its workspace, no other column shows a preview, and the target is tiled. */
  ghost predicate Settled(x: World) {
    var c := Destination(x);
    && (c != null ==> Attached(x.tree, c))
    && (forall d :: d in x.previews ==> d == c && (x.previews[d] != null ==> IsTiled(x.tree, x.previews[d])))
  }

  /**
   * No command moves a window, and no other drag begins, while a drag is over a
   * column; and a window that is moved beyond the edge finds an active column.
   */
  ghost predicate Careful(x: World, e: Event)
    requires InOrder(x) && Admissible(x, e)
  {
    && (Destination(x) == null || !(e.MoveCommand? || e.MoveToWorkspaceCommand? || e.DragStarts?))
    && (e.MoveCommand? && IsTiled(x.tree, e.window) ==> CanCross(x.tree, e.window, e.heading))
  }

  lemma CarefulIsSound(x: World, e: Event)
    requires InOrder(x) && Admissible(x, e) && Settled(x) && Careful(x, e)
    ensures Sound(x, e)
  {
    hide Inv, Attached;
  }

  lemma SettledStays(x: World, u: Tree, w: Window?)
    requires Settled(x) && ColumnsPersist(x.tree, u) && OnlyMoves(x.tree, u, w)
    requires forall c :: c in x.previews && x.previews[c] != null ==> x.previews[c] != w
    ensures Settled(x.(tree := u))
  {
    if Destination(x) != null {
      StaysAttached(x.tree, u, Destination(x));
    }
    hide OutputStays, ColumnsPersist, Remembers, Attached;
  }

  lemma NothingShown(x: World)
    requires Settled(x) && Destination(x) == null
    ensures x.previews == map[]
  {
  }

  lemma NothingUnsettles(x: World)
    requires x.previews == map[] && Destination(x) == null
    ensures Settled(x)
  {
  }

  lemma LeavingSettles(x: World, w: Window)
    requires InOrder(x) && CanLeave(x) && Settled(x)
    ensures LeaveDestination(x).previews == map[] && EndMouseOperation(x, w).previews == map[]
  {
    if Destination(x) == null {
      NothingShown(x);
    }
    hide Inv, Attached, CanLeave, IsTiled;
  }

  lemma PlainStaysSettled(x: World, e: Event)
    requires InOrder(x) && Admissible(x, e) && Settled(x) && Careful(x, e) && IsPlain(e)
    ensures Settled(x.(tree := TreeStep(x, e)))
  {
    hide Inv, ColumnsPersist, OnlyMoves, TreeStep, Attached;
    if Destination(x) != null {
      SettledStays(x, TreeStep(x, e), Mover(x, e));
    }
  }

  lemma MoveStaysSettled(x: World, w: Window, h: Heading, spare: Column)
    requires InOrder(x) && IsPlaced(x.tree, w) && spare !in x.tree.columns && CanMove(x, w, h, spare)
    requires Settled(x) && Destination(x) == null
    ensures Settled(MoveStep(x, w, h, spare))
  {
    NothingShown(x);
    hide Inv, Goes, Move, OnlyMoves, Settled, DragOk, CanCross;
    NothingUnsettles(MoveStep(x, w, h, spare));
  }

  lemma ArrangedStaysSettled(x: World, c: Column, target: Window?)
    requires InOrder(x) && Settled(x) && c in x.previews && c in x.tree.columns
    requires target != null ==> target in x.tree.columns[c].children
    ensures Settled(ArrangeStep(x, c, target))
  {
    assert ChildrenOk(x.tree, c);
    hide Inv, OnlyMoves, Attached;
  }

  lemma DropStaysSettled(x: World)
    requires InOrder(x) && x.drag.Some? && Settled(x)
    requires var c := Destination(x); c != null ==> CanDrop(x.tree, x.drag.value.window, c, Target(x, c))
    ensures Settled(DropStep(x))
  {
    hide Inv, Drop, OnlyMoves, Attached, CanDrop, IsTiled;
  }

  lemma UnmapStaysSettled(x: World, w: Window)
    requires InOrder(x) && IsPlaced(x.tree, w) && CanLeave(x) && Settled(x)
    ensures Settled(UnmapStep(x, w))
  {
    LeavingSettles(x, w);
    hide Inv, Unmap, OnlyMoves, EndMouseOperation, CanLeave, Settled, DragOk;
    NothingUnsettles(UnmapStep(x, w));
  }

  lemma FloatStaysSettled(x: World, w: Window, enable: bool, spare: Column)
    requires InOrder(x) && IsPlaced(x.tree, w) && CanLeave(x) && Settled(x) && spare !in x.tree.columns
    ensures Settled(FloatStep(x, w, enable, spare))
  {
    LeavingSettles(x, w);
    hide Inv, Float, OnlyMoves, EndMouseOperation, CanLeave, ActiveWindow, Settled, DragOk;
    NothingUnsettles(FloatStep(x, w, enable, spare));
  }

  lemma LeaveStaysSettled(x: World)
    requires InOrder(x) && CanLeave(x) && Settled(x) && x.drag.Some?
    ensures Settled(LeaveStep(x))
  {
    LeavingSettles(x, x.drag.value.window);
    hide Inv, OnlyMoves, LeaveDestination, CanLeave, Attached;
  }

  lemma DragStaysSettled(x: World, w: Window)
    requires InOrder(x) && IsPlaced(x.tree, w) && Settled(x) && Destination(x) == null
    ensures Settled(DragStep(x, w))
  {
    NothingShown(x);
    hide Inv, OnlyMoves, DragDetach, Settled, DragOk;
    NothingUnsettles(DragStep(x, w));
  }

  lemma HoverStaysSettled(x: World, c: Column)
    requires InOrder(x) && x.drag.Some? && Attached(x.tree, c) && Settled(x) && Destination(x) == null
    ensures Settled(HoverStep(x, c))
  {
    NothingShown(x);
    hide Inv, OnlyMoves, Attached;
  }

  lemma PlaceholderStaysSettled(x: World, s: Workspace, output: Option<nat>, i: nat, spare: Column)
    requires InOrder(x) && x.drag.Some? && spare !in x.tree.columns && Settled(x) && Destination(x) == null
    requires s in x.tree.listed && s in x.tree.workspaces && output.Some? && i <= |x.tree.workspaces[s].columns|
    ensures Settled(PlaceholderStep(x, s, output, i, spare))
  {
    NothingShown(x);
    hide Inv, OnlyMoves, Attached, NewColumn, ColumnsPersist;
  }

  lemma EnterStaysSettled(x: World, output: nat)
    requires InOrder(x) && Settled(x)
    ensures Settled(EnterStep(x, output))
  {
    hide Inv;
  }

  /** As long as the run is careful, the destination hangs and the target is tiled. */
  lemma CarefulStaysSettled(x: World, e: Event)
    requires InOrder(x) && Admissible(x, e) && Settled(x) && Careful(x, e) && Proceeds(x, e)
    ensures Settled(Step(x, e))
  {
    hide Inv, Sound, CanDrop, CanMove, Move, Attached, Settled, CanMap, CanLeave, CanCross;
    hide TreeStep, UnmapStep, FloatStep, MoveStep, EnterStep, Dragging;
    match e
    case WindowUnmaps(w) => UnmapStaysSettled(x, w);
    case FloatCommand(w, enable, spare) => FloatStaysSettled(x, w, enable, spare);
    case MoveCommand(w, h, spare) => MoveStaysSettled(x, w, h, spare);
    case OutputEntered(output) => EnterStaysSettled(x, output);
    case _ =>
      if IsPlain(e) {
        PlainStaysSettled(x, e);
      } else {
        DraggingStaysSettled(x, e);
      }
  }

  lemma DraggingStaysSettled(x: World, e: Event)
    requires InOrder(x) && Admissible(x, e) && Settled(x) && Careful(x, e) && Proceeds(x, e) && IsOfDrag(e)
    ensures Settled(Step(x, e))
  {
    hide Inv, CanDrop, CanMove, Move, Attached, Settled, CanMap, CanLeave, CanCross;
    hide TreeStep, UnmapStep, FloatStep, MoveStep, DragStep, HoverStep, PlaceholderStep, DropStep, EnterStep;
    hide ArrangeStep, LeaveStep;
    match e
    case DragStarts(w) => DragStaysSettled(x, w);
    case DragOverColumn(c) => HoverStaysSettled(x, c);
    case DragShowsColumn(s, output, i, spare) => PlaceholderStaysSettled(x, s, output, i, spare);
    case PreviewArranged(c, target) => AttachedIsIn(x.tree, c); ArrangedStaysSettled(x, c, target);
    case DragLeavesColumn => LeaveStaysSettled(x);
    case DragEnds => DropStaysSettled(x);
  }

  lemma AttachedIsIn(t: Tree, c: Column)
    requires Attached(t, c)
    ensures c in t.columns
  {
  }

  /** A careful run, from a state with nothing left over, never goes wrong. */
  ghost predicate IsCareful(x: World, events: seq<Event>)
    requires InOrder(x)
    decreases |events|
  {
    events != [] && Admissible(x, events[0]) ==>
      && Careful(x, events[0])
      && (Proceeds(x, events[0]) && InOrder(Step(x, events[0])) ==> IsCareful(Step(x, events[0]), events[1..]))
  }

  lemma {:induction false} CarefulRunsSucceed(x: World, events: seq<Event>)
    requires InOrder(x) && Settled(x) && IsRun(x, events) && IsCareful(x, events)
    ensures Run(x, events).Some? && Settled(Run(x, events).value)
    decreases |events|
  {
    hide Proceeds, Step, Sound, InOrder, Admissible, Settled, Careful;
    if events != [] {
      CarefulIsSound(x, events[0]);
      StepKeeps(x, events[0]);
      CarefulStaysSettled(x, events[0]);
      CarefulRunsSucceed(Step(x, events[0]), events[1..]);
    }
  }
}
