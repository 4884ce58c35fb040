/**
 * Runs that show how the window tree gets out of order: a drag whose
 * destination loses its last window to a command, and an active output that the
 * pointer changed.
 */
module TreeWitnesses {
  import opened Seqs
  import opened Tree
  import opened TreeInvariant
  import opened TreeSteps
  import opened TreeCommands
  import opened TreeDrags
  import opened TreeRuns

  /** Two workspaces, two windows that are tiled and one that floats, and columns for them. */
  datatype Cast = Cast(s: Workspace, r: Workspace, u: Window, v: Window, w: Window, c: Column, d: Column, e: Column)

  ghost predicate Distinct(k: Cast) {
    k.s != k.r && k.u != k.v && k.v != k.w && k.w != k.u && k.c != k.d && k.d != k.e && k.e != k.c
  }

  const NO_WINDOWS: WorkspaceState := WorkspaceState([], [], null, Tiling, false)

  /** Two empty workspaces on one output. */
  function Bare(k: Cast): Tree {
    Tree(map[], map[], map[k.s := NO_WINDOWS, k.r := NO_WINDOWS], {k.s, k.r}, k.s, Some(0))
  }

  /** One window in a column of its own, with the focus or not. */
  function OneColumn(k: Cast, focus: Column?): Tree {
    Tree(map[k.v := WindowState(k.s, k.c, Some(0), false)],
         map[k.c := ColumnState(k.s, Some(0), [k.v], k.v)],
         map[k.s := WorkspaceState([k.c], [], focus, Tiling, false), k.r := NO_WINDOWS],
         {k.s, k.r}, k.s, Some(0))
  }

  /** Two windows, each in a column of its own, and maybe one that floats. */
  function TwoColumns(k: Cast, floating: bool, focus: Column?, mode: FocusMode): Tree {
    var tiled := map[k.v := WindowState(k.s, k.c, Some(0), false), k.u := WindowState(k.s, k.d, Some(0), false)];
    Tree(if floating then tiled[k.w := WindowState(k.s, null, Some(0), false)] else tiled,
         map[k.c := ColumnState(k.s, Some(0), [k.v], k.v), k.d := ColumnState(k.s, Some(0), [k.u], k.u)],
         map[k.s := WorkspaceState([k.d, k.c], if floating then [k.w] else [], focus, mode, false), k.r := NO_WINDOWS],
         {k.s, k.r}, k.s, Some(0))
  }

  // ---------------------------------------------------------------------
  // Mapping, in terms of the tree's own operations
  // ---------------------------------------------------------------------

  /** A window alone in a new first column. */
  function Alone(t: Tree, s: Workspace, w: Window, output: Option<nat>, c: Column): Tree
    requires s in t.workspaces
  {
    var made := InsertColumn(CreateColumn(CreateWindow(t, w), c), s, c, output, 0);
    InsertChild(made, c, w, 0)
  }

  lemma MapsAlone(t: Tree, w: Window, output: Option<nat>, c: Column)
    requires CanMap(t, w, false, output) && c !in t.columns
    requires t.activeWorkspace in t.workspaces && t.workspaces[t.activeWorkspace].activeColumn == null
    ensures MapUnfocused(t, w, false, output, c) == Alone(t, t.activeWorkspace, w, output, c)
  {
    var s, made := t.activeWorkspace, CreateWindow(t, w);
    ActiveIsListed(t);
    CreateWindowKeeps(t, w);
    hide Inv, Insert, CreateColumn, InsertColumn, InsertChild, ColumnsPersist, OnlyMoves, Attached, ColumnsOk, OutputStays;
    assert PutBehindFocus(made, s, w, output, c) == PutInNewColumn(made, s, w, output, c);
    var hung := NewColumn(made, s, output, 0, c);
    assert PutBehindActive(hung, c, w) == InsertChild(hung, c, w, 0);
  }

  lemma MapsFloating(t: Tree, w: Window, output: Option<nat>, c: Column)
    requires CanMap(t, w, true, output) && c !in t.columns && t.activeWorkspace in t.workspaces
    ensures MapUnfocused(t, w, true, output, c) == AddFloating(CreateWindow(t, w), t.activeWorkspace, w)
  {
    ActiveIsListed(t);
    CreateWindowKeeps(t, w);
    hide Inv, AddFloating, ColumnsPersist, OnlyMoves, ColumnsOk;
  }

  // ---------------------------------------------------------------------
  // The pictures follow each other
  // ---------------------------------------------------------------------

  lemma FirstColumnIs(k: Cast)
    requires Distinct(k)
    ensures Alone(Bare(k), k.s, k.v, Some(0), k.c) == OneColumn(k, null)
    ensures CanShow(OneColumn(k, null), k.v) && SetFocusedWindow(OneColumn(k, null), k.v) == OneColumn(k, k.c)
  {
    assert Insert([], 0, k.c) == [k.c] && Insert([], 0, k.v) == [k.v];
  }

  lemma SecondColumnIs(k: Cast)
    requires Distinct(k)
    ensures Alone(OneColumn(k, null), k.s, k.u, Some(0), k.d) == TwoColumns(k, false, null, Tiling)
  {
    SecondColumnHangs(k);
    SecondColumnHolds(k);
    hide OneColumn, TwoColumns, Alone;
  }

  lemma SecondColumnHangs(k: Cast)
    requires Distinct(k)
    ensures var t, u := Alone(OneColumn(k, null), k.s, k.u, Some(0), k.d), TwoColumns(k, false, null, Tiling);
            && t.workspaces == u.workspaces && t.listed == u.listed
            && t.activeWorkspace == u.activeWorkspace && t.activeOutput == u.activeOutput
  {
    assert Insert([k.c], 0, k.d) == [k.d, k.c];
  }

  lemma SecondColumnHolds(k: Cast)
    requires Distinct(k)
    ensures var t, u := Alone(OneColumn(k, null), k.s, k.u, Some(0), k.d), TwoColumns(k, false, null, Tiling);
            t.windows == u.windows && t.columns == u.columns
  {
    assert Insert([], 0, k.u) == [k.u];
  }

  lemma SecondFocusIs(k: Cast)
    requires Distinct(k)
    ensures var t := TwoColumns(k, false, null, Tiling);
            CanShow(t, k.u) && SetFocusedWindow(t, k.u) == TwoColumns(k, false, k.d, Tiling)
  {
  }

  lemma FloatingIs(k: Cast)
    requires Distinct(k)
    ensures AddFloating(CreateWindow(TwoColumns(k, false, k.d, Tiling), k.w), k.s, k.w) == TwoColumns(k, true, k.d, Tiling)
  {
    var t := AddFloating(CreateWindow(TwoColumns(k, false, k.d, Tiling), k.w), k.s, k.w);
    assert [] + [k.w] == [k.w];
    assert t.windows == TwoColumns(k, true, k.d, Tiling).windows;
    assert t.workspaces == TwoColumns(k, true, k.d, Tiling).workspaces;
  }

  lemma FloatingFocusIs(k: Cast)
    requires Distinct(k)
    ensures var t := TwoColumns(k, true, k.d, Tiling);
            CanShow(t, k.w) && SetFocusedWindow(t, k.w) == TwoColumns(k, true, k.d, Floating)
  {
    assert Remove([k.w], k.w) + [k.w] == [k.w];
  }

  lemma TilingFocusIs(k: Cast)
    requires Distinct(k)
    ensures var t := TwoColumns(k, true, k.d, Floating);
            CanShow(t, k.v) && SetFocusedWindow(t, k.v) == TwoColumns(k, true, k.c, Tiling)
  {
  }

  // ---------------------------------------------------------------------
  // The run to two columns and a floating window
  // ---------------------------------------------------------------------

  lemma BareIs(k: Cast) returns (events: seq<Event>)
    requires Distinct(k)
    ensures Leads(events, World(Bare(k), None, map[]))
  {
    LeadsNowhere();
    BeginsInOrder();
    LeadsOn([], BEGIN, WorkspaceCreated(k.s));
    var x1 := Step(BEGIN, WorkspaceCreated(k.s));
    LeadsOn([] + [WorkspaceCreated(k.s)], x1, WorkspaceCreated(k.r));
    var x2 := Step(x1, WorkspaceCreated(k.r));
    events := [] + [WorkspaceCreated(k.s)] + [WorkspaceCreated(k.r)];
    LeadsOn(events, x2, OutputEnabled(0));
    events := events + [OutputEnabled(0)];
    assert Step(x2, OutputEnabled(0)).tree == Bare(k);
  }

  /** Mapping a window with the focus, when it comes alone in a new column. */
  lemma MapAloneLeads(events: seq<Event>, x: World, w: Window, output: Option<nat>, c: Column, placed: Tree, u: Tree)
    requires Leads(events, x) && CanMap(x.tree, w, false, output) && c !in x.tree.columns
    requires x.tree.activeWorkspace in x.tree.workspaces
    requires x.tree.workspaces[x.tree.activeWorkspace].activeColumn == null
    requires placed == Alone(x.tree, x.tree.activeWorkspace, w, output, c)
    requires CanShow(placed, w) && SetFocusedWindow(placed, w) == u
    ensures Leads(events + [WindowMaps(w, false, output, true, c)], x.(tree := u))
  {
    var e := WindowMaps(w, false, output, true, c);
    LeadsInOrder(events, x);
    hide Inv, Alone, SetFocusedWindow, CanShow, Leads, MapUnfocused, CanMap, OnlyMoves, ColumnsPersist;
    MapsAlone(x.tree, w, output, c);
    LeadsOn(events, x, e);
    assert Step(x, e) == x.(tree := Map(x.tree, w, false, output, true, c));
  }

  lemma OneColumnLeads(k: Cast) returns (events: seq<Event>)
    requires Distinct(k)
    ensures Leads(events, World(OneColumn(k, k.c), None, map[]))
  {
    var before := BareIs(k);
    var x := World(Bare(k), None, map[]);
    FirstColumnIs(k);
    hide Inv, Alone, SetFocusedWindow, CanShow, Leads;
    MapAloneLeads(before, x, k.v, Some(0), k.c, OneColumn(k, null), OneColumn(k, k.c));
    events := before + [WindowMaps(k.v, false, Some(0), true, k.c)];
  }

  /** Focus that goes to a window, or to none, in one event. */
  lemma FocusLeads(events: seq<Event>, x: World, w: Window, u: Tree)
    requires Leads(events, x) && IsPlaced(x.tree, w) && CanShow(x.tree, w) && SetFocusedWindow(x.tree, w) == u
    ensures Leads(events + [WindowFocused(w)], x.(tree := u))
  {
    LeadsInOrder(events, x);
    FocusSteps(x, w);
    hide *;
    LeadsOn(events, x, WindowFocused(w));
  }

  lemma FocusSteps(x: World, w: Window)
    requires InOrder(x) && IsPlaced(x.tree, w) && CanShow(x.tree, w)
    ensures var e := WindowFocused(w);
            && Admissible(x, e) && Sound(x, e) && Proceeds(x, e)
            && Step(x, e) == x.(tree := SetFocusedWindow(x.tree, w))
  {
    hide Inv, SetFocusedWindow, CanShow, OnlyMoves, ColumnsPersist, DragOk, SameLists, OutputStays, CanConsider;
  }

  lemma UnfocusLeads(events: seq<Event>, x: World, s: Workspace)
    requires Leads(events, x) && s in x.tree.workspaces && FocusDefined(x.tree, s, null)
    ensures Leads(events + [FocusedInWorkspace(s, null)], x.(tree := SetActiveWindow(x.tree, s, null)))
  {
    LeadsInOrder(events, x);
    hide Inv, SetActiveWindow, Leads, OnlyMoves, ColumnsPersist;
    LeadsOn(events, x, FocusedInWorkspace(s, null));
    assert Step(x, FocusedInWorkspace(s, null)) == x.(tree := Focus(x.tree, s, null));
  }

  lemma TwoColumnsLead(k: Cast) returns (events: seq<Event>)
    requires Distinct(k)
    ensures Leads(events, World(TwoColumns(k, false, k.d, Tiling), None, map[]))
  {
    var before := OneColumnLeads(k);
    var x := World(OneColumn(k, k.c), None, map[]);
    assert SetActiveWindow(x.tree, k.s, null) == OneColumn(k, null);
    LeadsInOrder(before, x);
    SecondColumnIs(k);
    SecondFocusIs(k);
    hide Inv, Alone, SetFocusedWindow, SetActiveWindow, CanShow, Leads, ActiveWindow;
    UnfocusLeads(before, x, k.s);
    var unfocused := before + [FocusedInWorkspace(k.s, null)];
    var y := World(OneColumn(k, null), None, map[]);
    LeadsInOrder(unfocused, y);
    MapAloneLeads(unfocused, y, k.u, Some(0), k.d, TwoColumns(k, false, null, Tiling), TwoColumns(k, false, k.d, Tiling));
    events := unfocused + [WindowMaps(k.u, false, Some(0), true, k.d)];
  }

  /** Two columns, and a floating window that has the focus. */
  lemma StageLeads(k: Cast) returns (events: seq<Event>)
    requires Distinct(k)
    ensures Leads(events, World(TwoColumns(k, true, k.d, Floating), None, map[]))
  {
    var before := TwoColumnsLead(k);
    var x := World(TwoColumns(k, false, k.d, Tiling), None, map[]);
    var e := WindowMaps(k.w, true, Some(0), true, k.e);
    LeadsInOrder(before, x);
    FloatingIs(k);
    FloatingFocusIs(k);
    hide Inv, AddFloating, SetFocusedWindow, CanShow, Leads, MapUnfocused, OnlyMoves, ColumnsPersist;
    MapsFloating(x.tree, k.w, Some(0), k.e);
    LeadsOn(before, x, e);
    assert Step(x, e) == x.(tree := Map(x.tree, k.w, true, Some(0), true, k.e));
    events := before + [e];
  }

  lemma RaiseAlone(k: Cast)
    requires Distinct(k)
    ensures var t := TwoColumns(k, true, k.d, Floating);
            IsPlaced(t, k.w) && IsFloating(t, k.w) && t.windows[k.w].workspace in t.workspaces && Raise(t, k.w) == t
    ensures Attached(TwoColumns(k, true, k.d, Floating), k.c)
  {
    assert Remove([k.w], k.w) + [k.w] == [k.w];
  }

  lemma DragStartsLeads(k: Cast) returns (events: seq<Event>)
    requires Distinct(k)
    ensures Leads(events, World(TwoColumns(k, true, k.d, Floating), Some(Drag(k.w, null)), map[]))
  {
    var before := StageLeads(k);
    var x := World(TwoColumns(k, true, k.d, Floating), None, map[]);
    RaiseAlone(k);
    LeadsInOrder(before, x);
    hide Inv, Raise, Leads, OnlyMoves, ColumnsPersist, TwoColumns, DragOk, Attached;
    LeadsOn(before, x, DragStarts(k.w));
    assert DragDetach(x.tree, k.w) == x.tree;
    events := before + [DragStarts(k.w)];
  }

  /** A drag of the floating window over a column whose only child has the focus. */
  lemma DragLeads(k: Cast) returns (events: seq<Event>)
    requires Distinct(k)
    ensures Leads(events, World(TwoColumns(k, true, k.c, Tiling), Some(Drag(k.w, k.c)), map[k.c := null]))
  {
    var before := DragStartsLeads(k);
    var t := TwoColumns(k, true, k.d, Floating);
    var x := World(t, Some(Drag(k.w, null)), map[]);
    RaiseAlone(k);
    LeadsInOrder(before, x);
    TilingFocusIs(k);
    assert IsPlaced(t, k.v);
    hide Inv, SetFocusedWindow, CanShow, Leads, OnlyMoves, ColumnsPersist, TwoColumns, DragOk, Attached;
    LeadsOn(before, x, DragOverColumn(k.c));
    var y := World(t, Some(Drag(k.w, k.c)), map[k.c := null]);
    assert Step(x, DragOverColumn(k.c)) == y;
    var over := before + [DragOverColumn(k.c)];
    FocusLeads(over, y, k.v, TwoColumns(k, true, k.c, Tiling));
    events := over + [WindowFocused(k.v)];
  }

  // ---------------------------------------------------------------------
  // The destination of a drag loses its only child
  // ---------------------------------------------------------------------

  /** A drag is over a column that has this one child. */
  ghost predicate HoversOverOnlyChild(x: World, v: Window) {
    && InOrder(x) && Destination(x) != null && IsPlaced(x.tree, v) && IsTiled(x.tree, v)
    && x.tree.windows[v].column == Destination(x) && Destination(x) in x.tree.columns
    && x.tree.columns[Destination(x)].children == [v]
  }

  /** A drag is over a column that is empty and hangs in no workspace. */
  ghost predicate LostDestination(x: World) {
    var c := Destination(x);
    InOrder(x) && c != null && c in x.tree.columns && x.tree.columns[c].children == [] && !Attached(x.tree, c)
  }

  lemma SendIsSound(x: World, v: Window, s: Workspace, spare: Column)
    requires HoversOverOnlyChild(x, v)
    requires s in x.tree.listed && s != x.tree.windows[v].workspace && spare !in x.tree.columns
    ensures var e := MoveToWorkspaceCommand(v, s, spare);
            && Admissible(x, e) && Sound(x, e) && Proceeds(x, e)
            && Step(x, e) == x.(tree := SendToWorkspace(x.tree, v, s, spare))
  {
    hide Inv, OnlyMoves, ColumnsPersist, SendToWorkspace, DragOk, CanConsider;
  }

  lemma SendLosesDestination(x: World, v: Window, s: Workspace, spare: Column)
    requires HoversOverOnlyChild(x, v)
    requires s in x.tree.listed && s != x.tree.windows[v].workspace && spare !in x.tree.columns
    requires InOrder(x.(tree := SendToWorkspace(x.tree, v, s, spare)))
    ensures LostDestination(x.(tree := SendToWorkspace(x.tree, v, s, spare)))
    ensures IsTiled(SendToWorkspace(x.tree, v, s, spare), v)
  {
    hide Inv, SendToWorkspace, OnlyMoves, Attached, DragOk;
    SendUnlinks(x.tree, v, s, spare);
  }

  /** When the child is sent to another workspace, the drag keeps a destination that hangs nowhere. */
  lemma SentAwayDuringDrag(events: seq<Event>, x: World, v: Window, s: Workspace, spare: Column) returns (y: World)
    requires Leads(events, x) && HoversOverOnlyChild(x, v)
    requires s in x.tree.listed && s != x.tree.windows[v].workspace && spare !in x.tree.columns
    ensures Leads(events + [MoveToWorkspaceCommand(v, s, spare)], y) && LostDestination(y)
    ensures y.drag == x.drag && y.previews == x.previews && IsTiled(y.tree, v)
  {
    SendIsSound(x, v, s, spare);
    LeadsInOrder(events, x);
    hide *;
    LeadsOn(events, x, MoveToWorkspaceCommand(v, s, spare));
    y := Step(x, MoveToWorkspaceCommand(v, s, spare));
    SendLosesDestination(x, v, s, spare);
  }

  /** The window's column is in the list of no workspace. */
  ghost predicate LostIn(t: Tree, w: Window, c: Column) {
    && w in t.windows && t.windows[w].column == c
    && forall s :: s in t.workspaces ==> c !in t.workspaces[s].columns
  }

  lemma Unlisted(t: Tree, c: Column)
    requires Inv(t) && c in t.columns && !Attached(t, c)
    ensures forall s :: s in t.workspaces ==> c !in t.workspaces[s].columns
  {
    forall s | s in t.workspaces
      ensures c !in t.workspaces[s].columns
    {
      assert ColumnsOk(t, s);
    }
  }

  lemma PutKeepsLists(t: Tree, w: Window, c: Column)
    requires Inv(t) && CanDrop(t, w, c, null)
    ensures var u := DropInColumn(t, w, c, null);
            forall s :: s in u.workspaces ==> s in t.workspaces && u.workspaces[s].columns == t.workspaces[s].columns
  {
    Pointers(t, w);
  }

  lemma StaysUnlisted(t: Tree, u: Tree, c: Column)
    requires SameLists(t, u) && u.workspaces.Keys == t.workspaces.Keys
    requires forall s :: s in t.workspaces ==> c !in t.workspaces[s].columns
    ensures forall s :: s in u.workspaces ==> c !in u.workspaces[s].columns
  {
  }

  lemma DropIsLost(t: Tree, w: Window, c: Column)
    requires Inv(t) && CanDrop(t, w, c, null) && !Attached(t, c)
    ensures LostIn(Drop(t, w, c, null), w, c)
  {
    hide Inv, Attached, OnlyMoves, DropInColumn, SetFocusedWindow, CanShow, SameLists, LostIn;
    DropLands(t, w, c, null);
    Unlisted(t, c);
    PutKeepsLists(t, w, c);
    DropShows(t, w, c);
    StaysUnlisted(DropInColumn(t, w, c, null), Drop(t, w, c, null), c);
    IsLost(Drop(t, w, c, null), w, c);
  }

  lemma IsLost(t: Tree, w: Window, c: Column)
    requires w in t.windows && t.windows[w].column == c
    requires forall s :: s in t.workspaces ==> c !in t.workspaces[s].columns
    ensures LostIn(t, w, c)
  {
  }

  lemma DropShows(t: Tree, w: Window, c: Column)
    requires Inv(t) && CanDrop(t, w, c, null)
    ensures SameLists(DropInColumn(t, w, c, null), Drop(t, w, c, null))
    ensures Drop(t, w, c, null).workspaces.Keys == DropInColumn(t, w, c, null).workspaces.Keys
  {
    hide Inv, Attached, CanDrop, OnlyMoves, DropInColumn, SetFocusedWindow, CanShow, SameLists;
    DropDefined(t, w, c, null);
    ShowFocuses(DropInColumn(t, w, c, null), w);
  }

  lemma DropAdmits(x: World)
    requires LostDestination(x)
    ensures var target := Target(x, Destination(x));
            && Admissible(x, DragEnds) && (Sound(x, DragEnds) <==> target != null && IsTiled(x.tree, target))
            && (CanDrop(x.tree, x.drag.value.window, Destination(x), target) <==> target != null ==> IsTiled(x.tree, target))
  {
    hide Inv, Attached;
  }

  /**
   * A drop without a target on such a destination passes every assertion, and
   * leaves the window in a column that is in no workspace's list.
   */
  lemma DropGoesAstray(events: seq<Event>, x: World)
    requires Leads(events, x) && LostDestination(x) && Target(x, Destination(x)) == null
    ensures CanDrop(x.tree, x.drag.value.window, Destination(x), null)
    ensures LostIn(Drop(x.tree, x.drag.value.window, Destination(x), null), x.drag.value.window, Destination(x))
    ensures IsHistory(events + [DragEnds]) && After(events + [DragEnds]) == None
  {
    DropAdmits(x);
    hide Leads, IsHistory, After, Drop, Sound, Admissible, CanDrop, LostIn, Attached;
    DropIsLost(x.tree, x.drag.value.window, Destination(x));
    LeadsAstray(events, x, DragEnds);
  }

  /** With a target that is still tiled, the window joins the target's column instead. */
  lemma DropFollowsTarget(events: seq<Event>, x: World, v: Window)
    requires Leads(events, x) && LostDestination(x) && Target(x, Destination(x)) == v && IsTiled(x.tree, v)
    ensures After(events + [DragEnds]).Some? && CanDrop(x.tree, x.drag.value.window, Destination(x), v)
    ensures var w, c := x.drag.value.window, Destination(x);
            && w in Drop(x.tree, w, c, v).windows && Drop(x.tree, w, c, v).windows[w].column != c
  {
    DropAdmits(x);
    hide Inv, Leads, IsHistory, After, Drop, Sound, Admissible, CanDrop, Attached, Proceeds, Step;
    DropLandsInDestination(x.tree, x.drag.value.window, Destination(x), v);
    LeadsOn(events, x, DragEnds);
    LeadsSome(events + [DragEnds], Step(x, DragEnds));
  }

  lemma LeadsSome(events: seq<Event>, x: World)
    requires Leads(events, x)
    ensures After(events).Some?
  {
  }

  lemma MoveIsUnsound(x: World, v: Window, h: Heading, spare: Column)
    requires HoversOverOnlyChild(x, v) && spare !in x.tree.columns
    requires CanCross(x.tree, v, h) && Goes(x.tree, v, h) && Departs(x.tree, v, h)
    ensures !CanLeave(x.(tree := Move(x.tree, v, h, spare)))
    ensures Admissible(x, MoveCommand(v, h, spare)) && !Sound(x, MoveCommand(v, h, spare))
  {
    hide Inv, OnlyMoves, Goes, Departs, CanCross, Move, CanLeave, CanConsider, DragOk;
    MoveIsSound(x, v, h, spare);
  }

  /**
   * When the child moves to another column, its own is considered for
   * destruction twice: for the move, and for the drag that the move ends. The
   * second time it hangs nowhere, and the assertion fails.
   */
  lemma MovedDuringDrag(events: seq<Event>, x: World, v: Window, h: Heading, spare: Column)
    requires Leads(events, x) && HoversOverOnlyChild(x, v) && spare !in x.tree.columns
    requires CanCross(x.tree, v, h) && Goes(x.tree, v, h) && Departs(x.tree, v, h)
    ensures !CanLeave(x.(tree := Move(x.tree, v, h, spare)))
    ensures IsHistory(events + [MoveCommand(v, h, spare)])
    ensures After(events + [MoveCommand(v, h, spare)]) == None
  {
    MoveIsUnsound(x, v, h, spare);
    hide *;
    LeadsAstray(events, x, MoveCommand(v, h, spare));
  }

  // ---------------------------------------------------------------------
  // From the very beginning
  // ---------------------------------------------------------------------

  /** Two columns, one window in each; the floating window is dragged over the one whose window has the focus. */
  function Hovering(k: Cast): World {
    World(TwoColumns(k, true, k.c, Tiling), Some(Drag(k.w, k.c)), map[k.c := null])
  }

  lemma HoveringIs(k: Cast)
    requires Distinct(k) && InOrder(Hovering(k))
    ensures HoversOverOnlyChild(Hovering(k), k.v) && Target(Hovering(k), k.c) == null
    ensures k.e !in Hovering(k).tree.columns && k.r in Hovering(k).tree.listed
    ensures Hovering(k).tree.windows[k.v].workspace != k.r
  {
    hide Inv;
  }

  lemma HoveringCanGo(k: Cast)
    requires Distinct(k) && InOrder(Hovering(k)) && HoversOverOnlyChild(Hovering(k), k.v)
    ensures var t, h := Hovering(k).tree, Heading(Left, false);
            CanCross(t, k.v, h) && Goes(t, k.v, h) && Departs(t, k.v, h)
  {
    hide Inv;
    assert IndexOf([k.d, k.c], k.c) == 1;
    assert Neighbour(Hovering(k).tree, k.v, true) == k.d;
  }

  /** The column's window is sent to the other workspace, and then the dragged one is dropped. */
  lemma DropOutOfOrder(k: Cast) returns (events: seq<Event>, x: World)
    requires Distinct(k)
    ensures Leads(events, x) && x.drag == Some(Drag(k.w, k.c)) && LostDestination(x)
    ensures CanDrop(x.tree, k.w, k.c, null) && LostIn(Drop(x.tree, k.w, k.c, null), k.w, k.c)
    ensures IsHistory(events + [DragEnds]) && After(events + [DragEnds]) == None
  {
    var before := DragLeads(k);
    LeadsInOrder(before, Hovering(k));
    HoveringIs(k);
    hide Leads, Inv, IsHistory, After, LostIn, Drop, TwoColumns, CanDrop, Attached, DragOk;
    x := SentAwayDuringDrag(before, Hovering(k), k.v, k.r, k.e);
    events := before + [MoveToWorkspaceCommand(k.v, k.r, k.e)];
    DropGoesAstray(events, x);
  }

  /** The column's window moves left instead. */
  lemma MoveFailsAssertion(k: Cast) returns (events: seq<Event>)
    requires Distinct(k)
    ensures Leads(events, Hovering(k)) && After(events + [MoveCommand(k.v, Heading(Left, false), k.e)]) == None
    ensures IsHistory(events + [MoveCommand(k.v, Heading(Left, false), k.e)])
  {
    events := DragLeads(k);
    LeadsInOrder(events, Hovering(k));
    HoveringIs(k);
    HoveringCanGo(k);
    hide Leads, Inv, IsHistory, After, TwoColumns, CanCross, Goes, Departs, DragOk;
    MovedDuringDrag(events, Hovering(k), k.v, Heading(Left, false), k.e);
  }

  /**
   * The pointer enters another output while a floating window has the focus,
   * which root_validate allows; the window goes, the focus is back on the
   * tiled windows, and what root_validate asserts is false.
   */
  lemma OutputMisleads(k: Cast) returns (events: seq<Event>, x: World, y: World)
    requires Distinct(k)
    ensures Leads(events, x) && OutputFollowsFocus(x.tree)
    ensures Leads(events + [OutputEntered(1)], y) && OutputValid(y.tree)
    ensures var later := events + [OutputEntered(1)] + [WindowUnmaps(k.w)];
            After(later).Some? && !OutputValid(After(later).value.tree)
  {
    events := StageLeads(k);
    var t := TwoColumns(k, true, k.d, Floating);
    x := World(t, None, map[]);
    LeadsInOrder(events, x);
    LeadsOn(events, x, OutputEntered(1));
    y := Step(x, OutputEntered(1));
    LeadsOn(events + [OutputEntered(1)], y, WindowUnmaps(k.w));
  }
}
