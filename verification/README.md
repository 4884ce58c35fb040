# A verified model of hayward's own logic

hayward is a Wayland compositor. This project models, in Dafny 4.11, the parts of
it that are its own work rather than calls into wlroots, and proves what they are
there for: the transaction protocol that shows changes atomically, the tree of
workspaces, columns and windows with its focus, the arithmetic that lays columns
and windows out, the list sort, and the handling of text, configuration and keys.

`dafny verify dfyconfig.toml` checks everything.

## How it is laid out

| file | what it models |
|---|---|
| `Transaction.dfy` | the transaction protocol as a machine over values: phases, queueing, dirty flags, commit and apply signals, configures and their acknowledgement, the timer |
| `TransactionSafety.dfy` | the invariant of that machine, kept by every event |
| `TransactionTheorems.dfy` | atomic snapshots, no lost update, locks that open once, transactions that end |
| `TransactionConfigures.dfy` | which clients a commit asks and waits for, and that what is written and marked dirty is shown |
| `TransactionManager.dfy` | the same protocol on objects, field by field; each method is proved to do what its function in `Transaction.dfy` says |
| `StateCopy.dfy` | the copies of column and workspace state, which own their lists |
| `Tree.dfy` | windows, columns, workspaces and the root, as classes, and each tree operation as a function on a picture of them |
| `TreeInvariant.dfy` | the tree's invariant and a proof, operation by operation, that it is kept |
| `TreeSteps.dfy` | the operations as their clients see them: what they demand, keep and leave alone |
| `TreeCommands.dfy` | the move, floating, drag, map and unmap clients of the tree, as functions that keep the invariant |
| `TreeDrags.dfy` | the drag that may be under way, and what the commands leave of the column it is over |
| `TreeRuns.dfy` | runs of all these events with the drag, and exactly when one goes wrong |
| `TreeTheorems.dfy` | what holds after every run that did not: one place for every window, agreeing pointers, focus, the active output |
| `TreePlaces.dfy` | where each command puts a window: which column, which child there, and what becomes of the place it left |
| `TreeWitnesses.dfy` | runs from the very beginning that do go wrong |
| `TreeOperations.dfy`, `TreeActions.dfy`, `TreeHandlers.dfy` | operations, clients and event handlers on the objects, each proved equal to its function |
| `Tiling.dfy`, `Resize.dfy` | column widths on one output, and the horizontal resize |
| `ColumnLayout.dfy` | the split and stacked column, and where the preview of a dragged window goes |
| `StableSort.dfy`, `Lists.dfy` | the growable list with its in-place stable merge sort, and what such a sort must do |
| `WorkspaceOrder.dfy` | the root's ordered list of workspaces |
| `Args.dfy`, `Quoting.dfy`, `Variables.dfy` | splitting and joining command lines; what quotes, brackets and escapes do there; configuration variables |
| `SeatConfigs.dfy` | merging of seat configuration |
| `Keyboard.dfy`, `KeyForwarding.dfy`, `Bindings.dfy` | the sorted arrays of held keys, which events reach the client, which binding is chosen |
| `Seqs.dfy` | facts about sequences |

Where the program changes objects in place the model has classes and methods with
loops. What such a method does is stated as an equation with a function on
values, and the theorems are proved about the functions.

## What the program does not do

These came out of the proofs. The model follows the code, and a lemma says when
the expected property holds.

- A drag goes on hovering over a column that a command took out of its workspace:
  `move workspace` moves the column's last window away and does not tell the drag.
  Without a preview target, the drop then puts the dragged window in that column,
  which no workspace lists (`TreeWitnesses.DropOutOfOrder`, a run from the
  beginning); with one, the window follows the target elsewhere
  (`TreeWitnesses.DropFollowsTarget`). `move left` and its like do tell the drag,
  and so consider the same column for destruction a second time, which fails an
  assertion (`TreeWitnesses.MoveFailsAssertion`). A drop keeps the tree in order if
  and only if there is a target or the column still hangs in its workspace
  (`TreeCommands.DropKeepsOrder`). `TreeRuns.Sound` is the exact condition for
  every event (`TreeRuns.StepKeeps`), a run goes wrong if and only if it meets an
  event that is not sound (`TreeTheorems.EveryRunBreaks`), and none does if no
  command moves a window and no other drag begins while one is over a column, and
  moves beyond an edge find an active column
  (`TreeTheorems.EveryCarefulRunSucceeds`).
- `move left` and its like never take a window to another output: when there is
  one, `window_tiling_move_to_next_output` passes on the output that the window is
  on, so the window comes to the first, last or active column there
  (`TreeTheorems.MovesStayOnOutput`, `TreeCommands.EdgeColumn`). On the way the
  program reads the output of the workspace's active column without asking whether
  there is one (`TreeCommands.CanCross`, part of `TreeRuns.Sound`).
- `root_set_active_output` alone, as when the pointer enters another output, breaks
  what `root_validate` asserts of the active output if and only if a tiled window on
  another output has the focus (`TreeTheorems.EnteringOutput`). While a floating
  window has the focus the assertion holds, and it fails when the last one goes
  (`TreeWitnesses.OutputMisleads`). Focusing a tiled window puts it right unless that
  window is the active one already (`TreeTheorems.FocusRestoresOutput`); all other
  events keep it (`TreeTheorems.EveryRunKeepsOutput`).
- A column whose titlebars do not fit may have children of negative height. Then
  the first-increase test can stop before a nearer gap
  (`ColumnLayout.NegativeHeightsMislead`, a split column of two windows).
  `ColumnLayout.MisledIff` says for which heights some cursor over the column does
  that; with non-negative heights none does
  (`ColumnLayout.NonNegativeNeverMisleads`).
- Rounding can leave the last column a negative width, as four equal columns in a
  box of two pixels have it (`Tiling.LastWidthNegative`); it does not if and only if
  the other columns, as rounded, fit (`Tiling.NonNegativeIff`).
- Past 32 recorded keys a press is still sent to the client but not recorded, so
  its release will not be sent: with 33 keys pressed one after the other, the last
  one stays held for the client (`KeyForwarding.KeyIsStuck`,
  `KeyForwarding.AgreementBreaks`).
- Of the bindings that name the device and the active layout, `get_active_binding`
  takes the first, whatever its lock and inhibition states, and of those for any
  layout it looks at the inhibition state only if none has the lock state, although
  its comments describe a preference for both. `Bindings.LockStateIsMet` and
  `Bindings.InhibitionIsMet` say exactly when each preference is met;
  `Bindings.PreferencesStopEarly` shows two lists where it is not.
- With `txn_wait` the inflated count keeps a transaction waiting even if no client
  was asked (`TransactionConfigures.CommitWaitsForAsked`), and whatever the clients
  do; only the timer ends it (`TransactionTheorems.TransactionEndsWithItsLastLock`).
- A workspace named by a number is ordered by that number only up to 2147483647
  (`WorkspaceOrder.NamedByNumber`); the next larger ones wrap around and come before
  all that fit (`WorkspaceOrder.LargeNumbersComeFirst`).
- A seat configuration that attaches a device twice, or has a cursor size without
  a theme, is changed by being merged onto a fresh one
  (`SeatConfigs.FreshIsIdentity`).
- A token list survives joining and splitting only if no token would be cut and
  all but the last close their quotes, brackets and escapes (`Args.SplitUndoesJoin`).

## Model

| member | source | states |
|---|---|---|
| TransactionTheorems.ReachableStates | src/tree/transaction.c:58-196 | in every reachable state between two callbacks: a scheduled idle implies phase IDLE; in IDLE nothing waits, nothing is configuring and the timer is off; in WAITING_CONFIRM the timer is armed and num_waiting is positive and counts the configuring windows (plus 1000000 under txn_wait); a dirty object implies queued, and queued in IDLE implies a scheduled commit; in IDLE current equals committed |
| TransactionTheorems.CommittedIsFrozen | src/tree/transaction.c:94-149 | nothing but the start of a transaction writes any committed state, whatever happens to the pending one |
| TransactionTheorems.CurrentChangesAsAWhole | src/tree/transaction.c:58-92 | an event that leaves a transaction waiting changes no current state; one that ends in IDLE leaves every current state equal to the committed one |
| TransactionTheorems.TransactionShowsItsSnapshot | src/tree/window.c:259-293 | from the wait to the end of a transaction, over any run: what is shown at the end is what was committed at its start, for every object at once |
| TransactionTheorems.DirtyIsSnapshotted | src/tree/transaction.c:94-121 | every object dirty when the commit signal starts is enlisted in that commit, and its snapshot is its pending state at the end of its own listener, whatever listeners write before or after; objects that are not dirty keep their snapshot |
| TransactionTheorems.UntouchedIsSnapshotted | src/tree/transaction.c:94-121 | if no listener rewrites it, that is the pending state it had when the signal started |
| TransactionTheorems.EmitCommitSnapshots | src/tree/window.c:259-273 | the k-th listener present when the signal starts is called in it; right after, its object has committed equal to pending, and the end of the signal still has that committed state |
| TransactionTheorems.OnlyThisTransactionsConfigureReleases | src/desktop/xdg_shell.c:300-317 | an acknowledgement that has any effect answers a configure sent to that window in the transaction under way |
| TransactionTheorems.LockOpensOnce | src/tree/window.c:239-249 | after a lock was released, the same serial never has an effect again, in any later state, for any window |
| TransactionTheorems.LateAcknowledgementsDoNothing | src/desktop/xdg_shell.c:300-317 | once a transaction is over, by acknowledgement or timeout, no serial it sent ever has an effect again |
| TransactionTheorems.SpentSerialsStaySpent | src/desktop/xdg_shell.c:180-242 | a serial no lock waits for is never waited for again, because configures take fresh serials |
| TransactionTheorems.ReleaseSpends | src/desktop/xdg_shell.c:300-317 | the acknowledgement that releases a lock leaves its serial spent |
| TransactionTheorems.TransactionEndsWithItsLastLock | src/tree/transaction.c:182-196 | after k distinct acknowledgements the transaction is over if and only if k is num_waiting, and otherwise num_waiting went down by k |
| TransactionTheorems.TimeoutEndsTransaction | src/tree/transaction.c:151-160 | one timeout returns to IDLE and shows every committed state |
| TransactionConfigures.ChangedWindowsAreWaitedFor | src/desktop/xdg_shell.c:180-242 | after the commit signal a window waits for its client if and only if, when its own listener started, it was dirty and visible and either had to ask again or differed from what it last asked for in resizing, tiled, fullscreen, width or height; those are then what was asked, setting by setting, by a configure with a fresh serial to this window in this transaction |
| TransactionConfigures.CommitWaitsForAsked | src/tree/transaction.c:94-149 | a commit ends up waiting if and only if it is atomic, its timer could be made, and some window had to ask or txn_wait is set; it then waits for exactly those windows |
| TransactionConfigures.EmitCommitAsks | src/tree/window.c:224-273 | the window of the k-th listener is asked as it is when that listener starts, and not again in the same signal |
| TransactionConfigures.MarkedIsQueued | src/tree/window.c:392-405 | marking an object dirty leaves a commit on its way, and writes nothing but the flag |
| TransactionConfigures.DirtyIsShown | src/tree/transaction.c:94-160 | the pending state of an object that is dirty when a commit comes, and is not rewritten during it, is shown at the latest when that commit's timer fires |
| TransactionConfigures.UpdateIsShown | src/tree/window.c:259-293 | no update is lost: what is written to an idle tree and marked dirty is what the next transaction shows |
| TransactionConfigures.TheDeadAreReaped | src/tree/window.c:275-293 | the after-apply signal goes to exactly the applied objects whose committed state is dead |
| TransactionSafety.RunKeeps | src/tree/transaction.c:94-196 | every run of events keeps the invariant: exactly the dirty objects listen for the next commit, once each, and every held lock belongs to a configure of this transaction |
| TransactionSafety.StepKeeps | src/tree/transaction.c:94-196 | each event keeps it |
| TransactionSafety.HandleCommitKeeps | src/tree/transaction.c:94-149 | a commit, whatever others write during its signals, keeps it |
| TransactionSafety.ProgressKeeps | src/tree/transaction.c:58-92 | applying a transaction keeps it and ends in IDLE |
| TransactionSafety.SurfaceCommitKeeps | src/desktop/xdg_shell.c:300-317 | an acknowledgement keeps it, and finds a positive count whenever it releases a lock |
| TransactionSafety.EmitCommitKeeps | src/tree/window.c:259-273 | the commit emission keeps the lists and locks linked while listeners dirty further objects |
| TransactionSafety.EmitApplyKeeps | src/tree/window.c:275-293 | the apply emission empties the apply list, and objects that left it show what they committed |
| TransactionManager.Manager.EnsureQueued | src/tree/transaction.c:162-172 | the objects do what Transaction.EnsureQueued says |
| TransactionManager.Manager.SetDirty | src/tree/window.c:392-405 | marks dirty, listens and queues once, as Transaction.MarkDirty |
| TransactionManager.Manager.AcquireCommitLock | src/tree/transaction.c:174-180 | one more lock is waited for |
| TransactionManager.Manager.WindowBeginConfigure | src/tree/window.c:224-237 | takes a lock once per configure, as Transaction.BeginConfigure |
| TransactionManager.Manager.ViewHandleWindowCommit | src/desktop/xdg_shell.c:180-242 | asks the client and takes a lock for it, as Transaction.ViewCommit; when that is, is spelled out in TransactionConfigures.ChangedWindowsAreWaitedFor |
| TransactionManager.Manager.HandleTransactionCommit | src/tree/column.c:117-128 | the commit listener: leaves the dirty list, joins the apply list, and copies pending to committed last |
| TransactionManager.Manager.HandleTransactionApply | src/tree/column.c:130-144 | the apply listener: copies committed to current, and queues the dead for destruction |
| TransactionManager.Manager.TransactionProgress | src/tree/transaction.c:58-92 | the phases from WAITING_CONFIRM to IDLE, as Transaction.Progress |
| TransactionManager.Manager.HandleCommit | src/tree/transaction.c:94-149 | in every reachable state its assertions hold and it does what Transaction.HandleCommit says |
| TransactionManager.Manager.HandleTimeout | src/tree/transaction.c:151-160 | in every reachable state its assertions hold and it ends the transaction |
| TransactionManager.Manager.ReleaseCommitLock | src/tree/transaction.c:182-196 | releases one lock and progresses at zero, as Transaction.ReleaseLock |
| TransactionManager.Manager.HandleSurfaceCommit | src/desktop/xdg_shell.c:300-317 | the surface commit needs nothing but the invariant for its assertions to hold |
| StateCopy.ColumnState.CopyFrom | src/tree/column.c:106-115 | every member and the contents of the list are copied, the target keeps its own list object, and the source is untouched |
| StateCopy.Column.Commit | src/tree/column.c:117-128 | committed becomes pending, current is untouched, and the three copies still share no memory |
| StateCopy.Column.Apply | src/tree/column.c:130-144 | current becomes committed, pending is untouched, no memory is shared |
| StateCopy.Column.Arrange | src/tree/column.c:275-284 | rewriting the pending child list shows in neither of the other copies |
| StateCopy.Column.CommitArrangeApply | src/tree/column.c:106-144 | what is shown after commit, arrangement and apply is what was pending at the commit |
| StateCopy.WorkspaceState.CopyFrom | src/tree/workspace.c:199-213 | both lists and all members are copied and each state keeps its own two lists |
| StateCopy.Workspace.Commit | src/tree/workspace.c:215-242 | committed becomes pending, current is untouched, the six lists stay apart |
| StateCopy.Workspace.Apply | src/tree/workspace.c:244-261 | current becomes committed, pending is untouched, the six lists stay apart |
| TreeTheorems.EveryRunPlacesWindowsOnce | src/tree/root.c:550-628 | after every run that did not go wrong, a window is at a place in some list if and only if it is attached and the place is the one its own pointers lead to; a dead window is nowhere |
| TreeTheorems.EveryRunKeepsBackPointers | src/tree/root.c:551-595 | after every such run an attached window is on an output and in a living workspace; if tiled, its column holds it, hangs in that workspace and is on the same output; if floating, the workspace lists it |
| TreeTheorems.EveryRunKeepsFocus | src/tree/root.c:643-683 | after every such run active_child is a child, and null only without children; active_column is null or in the workspace; floating focus needs a floating window; the active workspace is listed and alive |
| TreeTheorems.EveryRunBreaks | src/input/seatop_move.c:43-76 | a run from the beginning goes wrong if and only if it meets an event that is not sound |
| TreeTheorems.EveryCarefulRunSucceeds | src/input/seatop_move.c:346-362 | no run goes wrong in which, while a drag is over a column, no command moves a window and no other drag begins, and moves beyond an edge find an active column |
| TreeTheorems.MovesStayOnOutput | src/commands/move.c:158-171 | no move in a direction changes the output of the window, whether or not there is another output that way |
| TreeTheorems.OtherWindowsStay | src/tree/window.c:407-546 | no event changes the workspace, column, output or life of any window but the one it is about |
| TreeTheorems.EnteringOutput | src/tree/root.c:652-658 | changing only the active output keeps the tree in order, and keeps what root_validate asserts of it if and only if no tiled window on another output has the focus |
| TreeTheorems.FocusRestoresOutput | src/tree/workspace.c:896-946 | focusing a tiled window makes that assertion true unless the window was the active one of the shown workspace already and the output is wrong |
| TreeTheorems.OutputIsKept | src/tree/workspace.c:930-934 | every event but the pointer entering an output keeps the active output on that of the active column |
| TreeTheorems.EveryRunKeepsOutput | src/tree/root.c:652-658 | after every run in which the pointer enters no other output, what root_validate asserts of the active output holds |
| TreeTheorems.FocusTakes | src/tree/workspace.c:896-946 | the window asked for is the active one afterwards, and asking again changes nothing |
| TreeTheorems.FocusWindowTakes | src/tree/root.c:424-436 | the focused window's workspace shows and the window is its active one |
| TreeTheorems.FloatKeepsFocus | src/commands/floating.c:36-78 | a window that had its workspace's focus still has it after floating or tiling, whatever becomes of a drag on the way |
| TreeTheorems.MoveTakesFocus | src/commands/move.c:415-416 | a window that moved has the focus and its workspace shows |
| TreeTheorems.DropTakesFocus | src/input/seatop_move.c:52-62 | a dropped window has the focus and its workspace shows, wherever its column hangs |
| TreeTheorems.NeighbourTakesOver | src/tree/column.c:629-652 | when the active child leaves, the child above it becomes active, else the one below, else none; another active child stays |
| TreeTheorems.ArrivesBehindActive | src/commands/move.c:31-66 | a window moved to another column comes first, last, or right behind the active child, by direction |
| TreeRuns.StepKeeps | src/input/seatop_move.c:43-76 | an event passes the assertions about the drag's destination and leaves the tree in order if and only if it is sound, a condition on the state before it |
| TreeRuns.RunBreaks | src/input/seatop_move.c:43-76 | the same for runs from any state in order |
| TreeRuns.CarefulRunsSucceed | src/input/seatop_move.c:346-362 | careful runs from a settled state stay in order, with the destination hanging and the target tiled |
| TreeDrags.MoveLeaves | src/commands/move.c:330-424 | after a move in a direction a column can be considered for destruction if and only if it could before and did not just lose its only child |
| TreeDrags.SendUnlinks | src/commands/move.c:255-328 | sending the only child of a column to another workspace takes the column out of its own |
| TreeWitnesses.DropOutOfOrder | src/input/seatop_move.c:52-62 | from the beginning: a drag over a column, its only window sent away, and the drop passes every assertion and leaves the window in a column that no workspace lists |
| TreeWitnesses.DropGoesAstray | src/input/seatop_move.c:52-62 | the same for every run that leads to a drag over such a column without a target |
| TreeWitnesses.SentAwayDuringDrag | src/commands/move.c:255-328 | for every run that leads to a drag over a column with one child, sending that child away leaves the drag with a destination that hangs nowhere |
| TreeWitnesses.DropFollowsTarget | src/input/seatop_move.c:54-55 | with a target that is still tiled the window joins the target's column instead |
| TreeWitnesses.MovedDuringDrag | src/commands/move.c:396-421 | for every run that leads to a drag over a column with one child, moving that child to another column fails the assertion of column_consider_destroy |
| TreeWitnesses.MoveFailsAssertion | src/tree/column.c:221-222 | from the beginning: such a run |
| TreeWitnesses.OutputMisleads | src/tree/root.c:652-658 | from the beginning: the pointer enters another output while a floating window has the focus, and when that window goes what root_validate asserts is false |
| TreeHandlers.HandleEvent | src/input/seatop_move.c:43-362 | the objects, handling any event, move exactly as the picture does, drag and previews included |
| TreeHandlers.HandleUnref | src/input/seatop_move.c:346-362 | the objects do what TreeDrags.EndMouseOperation says |
| TreeHandlers.LeaveColumn | src/input/seatop_move.c:169-176 | the objects do what TreeDrags.LeaveDestination says |
| TreeHandlers.HoverOverEdge | src/input/seatop_move.c:212-253 | the objects do what TreeRuns.PlaceholderStep says |
| TreeHandlers.BeginDrag | src/input/seatop_move.c:98-139 | the objects do what TreeRuns.DragStep says |
| TreeHandlers.HandleUnmap | src/desktop/xdg_shell.c:488-526 | the objects do what TreeRuns.UnmapStep says: the drag is told before the window goes |
| TreeInvariant.InsertChildKeeps | src/tree/column.c:575-590 | inserting a detached window in an attached column keeps the invariant |
| TreeInvariant.RemoveChildKeeps | src/tree/column.c:629-652 | removing a child, with the choice of the next active one, keeps it |
| TreeInvariant.SetActiveChildKeeps | src/tree/column.c:654-675 | activating a child keeps it |
| TreeInvariant.AddFloatingKeeps | src/tree/workspace.c:609-634 | floating a detached window keeps it |
| TreeInvariant.FloatingNeedsOutput | src/tree/workspace.c:619-624 | for a window without an output it does so if and only if there is an active one |
| TreeInvariant.RemoveFloatingKeeps | src/tree/workspace.c:636-666 | removing a floating window keeps it: the focus goes back to tiling with the last one |
| TreeInvariant.RaiseKeeps | src/tree/window.c:1147-1161 | raising keeps it |
| TreeInvariant.DetachKeeps | src/tree/window.c:407-423 | detaching keeps it and leaves the window detached |
| TreeInvariant.InsertColumnKeeps | src/tree/workspace.c:750-834 | inserting a column anywhere keeps it and attaches the column |
| TreeInvariant.NextColumnIs | src/tree/column.c:226-250 | the column that takes over the focus is the nearest before on the same output, else the nearest behind, and none only if none is on that output |
| TreeInvariant.ConsiderDestroyColumnKeeps | src/tree/column.c:203-259 | considering an attached column for destruction keeps it |
| TreeInvariant.ConsiderDestroyWorkspaceKeeps | src/tree/workspace.c:364-397 | considering a workspace for destruction keeps it |
| TreeInvariant.SetActiveWindowKeeps | src/tree/workspace.c:896-946 | giving any window of the workspace, or none, the focus keeps it |
| TreeInvariant.SetActiveWorkspaceKeeps | src/tree/root.c:296-325 | switching workspaces keeps it, though the old one may die |
| TreeInvariant.CreateWorkspaceKeeps | src/tree/workspace.c:290-335 | creating a workspace keeps it |
| TreeInvariant.KillKeeps | src/tree/window.c:358-390 | the death of a detached window keeps it |
| TreeSteps.TakeOut | src/tree/window.c:407-423 | detaching moves no other window, unlinks no column, and removes the window from its column's children only |
| TreeSteps.PutInColumn | src/tree/column.c:575-590 | the window sits at the given index, with the column's workspace and output, and nothing else moved |
| TreeCommands.TargetColumn | src/commands/move.c:96-111 | a column of the workspace on the wanted output, and none only if there is none |
| TreeCommands.Float | src/commands/floating.c:19-84 | the window stays in its workspace, floats if and only if asked to, and nothing else moved |
| TreeCommands.MoveToColumn | src/commands/move.c:31-66 | the window is in the column, columns persist and nothing else moved |
| TreeCommands.MoveToWorkspace | src/commands/move.c:80-121 | the window is in the workspace and tiled if and only if it was before |
| TreeCommands.SendToWorkspace | src/commands/move.c:255-328 | the same with the focus and the clean-up of what was left |
| TreeCommands.MovePast | src/commands/move.c:181-200 | moving up or down swaps the window with that sibling and no other |
| TreeCommands.MoveSideways | src/commands/move.c:201-250 | moving left or right puts the window in the column next to its own if there is one, and otherwise in the new one, in the same workspace and on the same output |
| TreeCommands.MoveInDirection | src/commands/move.c:173-253 | it reports whether there was somewhere to go or another output that way, and changes nothing if not; the window stays in its workspace and on its output (where it goes is in TreePlaces) |
| TreeCommands.EdgeColumn | src/commands/move.c:123-156 | the column chosen for a move beyond the edge is one of the workspace on the window's own output |
| TreeCommands.Move | src/commands/move.c:330-424 | the window stays tiled in its workspace, which shows if it moved; if not, nothing changes |
| TreeCommands.DragDetach | src/input/seatop_move.c:98-139 | the dragged window floats in its own workspace and nothing else moved |
| TreeCommands.DropKeepsOrder | src/input/seatop_move.c:52-62 | a drop keeps the tree in order if and only if there is a target or the destination still hangs in its workspace |
| TreeCommands.DropLands | src/input/seatop_move.c:52-62 | the window comes right behind the target, wherever that is by now, or first in the destination, which may hang nowhere; nothing else moves |
| TreeCommands.DropLandsInDestination | src/input/seatop_move.c:52-62 | it ends up in the destination if and only if there is no target or the target is still its child |
| TreeCommands.DropsAtPreview | src/input/seatop_move.c:52-62 | if the children are those the preview before child g was arranged for, the window becomes child g and no other changes its order |
| TreeCommands.Map | src/desktop/xdg_shell.c:556-659 | a new window is in the active workspace, floating if and only if asked to, and nothing else moved |
| TreeCommands.Unmap | src/desktop/xdg_shell.c:488-526 | the window is detached and dead and nothing else moved |
| TreeCommands.PastNeighbour | src/commands/move.c:181-200 | taking an item out and putting it on the other side of its neighbour swaps the two |
| TreePlaces.MoveGoesToNext | src/commands/move.c:201-250 | move left puts the window in the column at the greatest smaller place that is on its output, move right at the least greater one, behind the active child there; its own column goes if it was alone in it, and the others keep their order |
| TreePlaces.MoveMakesColumn | src/commands/move.c:201-250 | with no such column, and siblings in its own, the window is alone in a new column, before all others for left and behind all others for right |
| TreePlaces.MovePassesSibling | src/commands/move.c:181-200 | move up exchanges the window with the child above it, move down with the one below, and no other child moves |
| TreePlaces.MoveStopsAtEdge | src/commands/move.c:158-253 | with no sibling or column on that side, no siblings for left and right, and no other output that way, nothing changes |
| TreePlaces.MoveGoesToEdge | src/commands/move.c:123-156 | with another output that way the window joins, on its own output, the last column for left, the active or else the first one for down, and the first one otherwise; first there for down, last for up, and else behind the active child |
| TreePlaces.SendGoesToTarget | src/commands/move.c:80-121 | a tiled window sent to a workspace joins the active column there if that is on its output, and else the first that is, behind the active child; it has the focus there, the workspace that shows does not change, and its old column and workspace go if it was all they had |
| TreePlaces.SendMakesColumn | src/commands/move.c:80-121 | with none on its output there, it is alone in a new first column |
| TreePlaces.SendFloats | src/commands/move.c:80-121 | a floating one comes on top of those there, and stays on its output |
| TreePlaces.FloatGoesOnTop | src/commands/floating.c:36-51 | a window made to float comes last in the list of its workspace and stays on its output; its column goes if it was alone there; it has the focus if it had it |
| TreePlaces.UnfloatJoins | src/commands/floating.c:52-78 | one that floats no more joins the active column on its output, or else the first, behind the active child |
| TreePlaces.UnfloatMakesColumn | src/commands/floating.c:52-78 | with none there, it is alone in a new first column |
| TreePlaces.RaiseGoesOnTop | src/tree/window.c:1147-1161 | raising moves the window to the end of its list and nothing else |
| TreePlaces.DragGoesOnTop | src/input/seatop_move.c:98-139 | a dragged window floats on top of the others; if it was tiled it has the focus and its workspace shows, otherwise what shows does not change |
| TreePlaces.SwitchShows | src/tree/root.c:296-325 | switching shows the workspace on the output of its active column; the one that showed before dies if and only if it is empty, and nothing else changes |
| TreePlaces.CreatedShows | src/tree/workspace.c:290-335 | a new workspace is empty and listed, and shows if and only if none was listed |
| TreePlaces.FirstChildIsActive | src/tree/column.c:575-590 | a window that joins a column becomes its active child if and only if it is the first |
| TreePlaces.LastFloatingGivesFocus | src/tree/workspace.c:636-666 | the focus mode goes back to tiling with the last floating window and not before |
| TreePlaces.EmptyColumnGoes | src/tree/column.c:203-259 | an empty column that is considered leaves its place; if it was active the nearest column before it on its output takes over, else the nearest behind, else none; the workspace dies if and only if it has nothing left and does not show |
| TreePlaces.CleanedUp | src/commands/move.c:305-311 | what considering a column and its workspace makes of the columns, floating windows and life of every workspace |
| TreePlaces.MapFloats | src/desktop/xdg_shell.c:598-622 | a new floating window comes on top, on the active output |
| TreePlaces.MapJoinsFocused | src/desktop/xdg_shell.c:598-622 | a new tiled window comes right behind the active child of the active column |
| TreePlaces.MapMakesColumn | src/desktop/xdg_shell.c:598-622 | with no active tiled window it is alone in a new first column, on the output asked for |
| TreePlaces.UnmapLeaves | src/desktop/xdg_shell.c:488-526 | the workspace of an unmapped window loses its column if it was alone there, and dies if and only if it is left empty and does not show |
| TreePlaces.LeavingTakesEmptyColumn | src/input/seatop_move.c:169-176 | a drag that leaves its column takes it out of its workspace if it is empty, and changes the columns no other way |
| TreeOperations.ColumnInsertChild | src/tree/column.c:575-590 | the objects do what Tree.InsertChild says |
| TreeOperations.ColumnAddSibling | src/tree/column.c:592-612 | an insertion next to the sibling; reconciling the sibling changes nothing |
| TreeOperations.ColumnAddChild | src/tree/column.c:614-627 | an insertion at the end |
| TreeOperations.ColumnRemoveChild | src/tree/column.c:629-652 | the objects do what Tree.RemoveChild says; reconciling the next active child changes nothing |
| TreeOperations.ColumnSetActiveChild | src/tree/column.c:654-675 | the objects do what Tree.SetActiveChild says |
| TreeOperations.PickNextColumn | src/tree/column.c:228-244 | the candidate loop computes Tree.NextColumn |
| TreeOperations.ColumnConsiderDestroy | src/tree/column.c:203-259 | the objects do what Tree.ConsiderDestroyColumn says, and its assertions hold |
| TreeOperations.WorkspaceAddFloating | src/tree/workspace.c:609-634 | the objects do what Tree.AddFloating says |
| TreeOperations.WorkspaceRemoveFloating | src/tree/workspace.c:636-666 | the objects do what Tree.RemoveFloating says |
| TreeOperations.WorkspaceInsertColumn | src/tree/workspace.c:750-834 | the objects do what Tree.InsertColumn says |
| TreeOperations.WorkspaceConsiderDestroy | src/tree/workspace.c:364-397 | the objects do what Tree.ConsiderDestroyWorkspace says |
| TreeOperations.WorkspaceSetActiveWindow | src/tree/workspace.c:896-946 | the objects do what Tree.SetActiveWindow says; reconciling the previous window changes nothing |
| TreeOperations.WindowDetach | src/tree/window.c:407-423 | the objects do what Tree.Detach says |
| TreeOperations.WindowRaiseFloating | src/tree/window.c:1147-1161 | the objects do what Tree.Raise says |
| TreeOperations.RootSetActiveWorkspace | src/tree/root.c:296-325 | the objects do what Tree.SetActiveWorkspace says |
| TreeOperations.RootSetFocusedWindow | src/tree/root.c:424-436 | the objects do what Tree.SetFocusedWindow says, even for a window in a column that hangs nowhere |
| TreeHandlers.CmdFloating | src/commands/floating.c:19-84 | the objects do what TreeRuns.FloatStep says |
| TreeActions.ChooseColumn | src/commands/floating.c:54-66 | the loop computes TreeCommands.TargetColumn |
| TreeActions.MoveWindowToColumn | src/commands/move.c:31-66 | the objects do what TreeCommands.MoveToColumn says |
| TreeActions.MoveWindowToWorkspace | src/commands/move.c:80-121 | the objects do what TreeCommands.MoveToWorkspace says |
| TreeActions.CmdMoveWindow | src/commands/move.c:255-328 | the objects do what TreeCommands.SendToWorkspace says |
| TreeActions.WorkspaceGetColumnBefore | src/tree/workspace.c:696-721 | the loop finds the nearest column before on the same output |
| TreeActions.WorkspaceGetColumnAfter | src/tree/workspace.c:723-748 | the loop finds the nearest column behind on the same output |
| TreeActions.WindowTilingMoveInDirection | src/commands/move.c:173-253 | the objects do what TreeCommands.MoveInDirection says |
| TreeActions.ChooseEdgeColumn | src/commands/move.c:133-146 | the loop computes TreeCommands.EdgeColumn |
| TreeHandlers.CmdMoveInDirection | src/commands/move.c:330-424 | the objects do what TreeRuns.MoveStep says, for tiled and floating windows |
| TreeActions.DoDetach | src/input/seatop_move.c:98-139 | the objects do what TreeCommands.DragDetach says |
| TreeHandlers.FinalizeMove | src/input/seatop_move.c:43-76 | the objects do what TreeRuns.DropStep says |
| TreeActions.HandleSurfaceMap | src/desktop/xdg_shell.c:556-659 | the objects do what TreeCommands.Map says |
| TreeActions.HandleSurfaceUnmap | src/desktop/xdg_shell.c:488-526 | the objects do what TreeCommands.Unmap says, once the drag was told |
| Tiling.NormalisedSumsToOne | src/tree/workspace.c:486-529 | whatever the fractions were, they end up positive with sum 1 |
| Tiling.NormalisedKeepsRatios | src/tree/workspace.c:486-529 | columns that had a size keep their ratio |
| Tiling.NormalisedTwice | src/tree/workspace.c:486-529 | arranging again changes no fraction |
| Tiling.NewColumnsShareEqually | src/tree/workspace.c:467-529 | with n columns, each one without a size ends up with the fraction 1/n, also when all are new |
| Tiling.TilesExactly | src/tree/workspace.c:530-556 | the x and width of the columns: the first starts at the edge of the box, each next one a gap behind the one before, and the last ends at the other edge |
| Tiling.NonNegativeIff | src/tree/workspace.c:530-556 | no column has a negative width if and only if there is room for those before the last one, as rounded |
| Tiling.RoomIsEnough | src/tree/workspace.c:530-556 | half a pixel of share for every column before the last is room enough |
| Tiling.LastWidthNegative | src/tree/workspace.c:530-556 | four equal columns in a box of two pixels: the last has width -1 |
| Tiling.WidthsNearShares | src/tree/workspace.c:530-556 | a width is within 1/2 of its share, the last within (n-1)/2 |
| Tiling.ArrangeTiling | src/tree/workspace.c:444-557 | the loops leave the columns with the normalised fractions and the widths and positions they stand for, covering the box exactly; new columns get an equal part; no width is negative if and only if the rounded ones fit |
| Resize.ResizeIsPixelExact | src/commands/resize.c:59-115 | an accepted resize followed by an arrange changes every width by exactly its delta, with the fractions positive and summing to 1 |
| Resize.ArrangeReproducesPixels | src/tree/workspace.c:530-556 | whole widths that fill the box come out of an arrange unchanged |
| Resize.WindowResizeTiledHorizontal | src/commands/resize.c:59-115 | accepted if and only if there is a column next to a named edge and no column involved gets below 100; the fractions are then the widths changed by their deltas, and else as they were |
| Resize.ResizeAndArrange | src/commands/resize.c:59-115 | the whole command on columns that show their layout: the column is exactly amount wider; with one neighbour at a named edge that one is amount narrower, with two the one before by half of it rounded up and the one behind by the rest; no other width changes, and none if refused |
| Resize.DeltasCancel | src/commands/resize.c:69-86 | what the column gains its neighbours lose |
| Resize.AcceptedIff | src/commands/resize.c:64-96 | a request is accepted if and only if the column before exists and the left edge is named, or the column behind and the right edge, and all columns involved keep 100 |
| Resize.NeighboursGiveWay | src/commands/resize.c:64-111 | the deltas of a request take the amount from the columns at the named edges, in halves if both, and from no others |
| ColumnLayout.PreviewIsNearest | src/tree/column.c:316-358 | the gap found by the first-increase test is nearest of all gaps, and the last of equally near ones |
| ColumnLayout.StackIsContiguous | src/tree/column.c:331-370 | children and preview follow each other without gap or overlap |
| ColumnLayout.SplitFillsColumn | src/tree/column.c:290-345 | before rounding, the visible children and the preview of a split column add up to its height |
| ColumnLayout.SplitNonNegative | src/tree/column.c:290-345 | when the titlebars fit, no split child has a negative height |
| ColumnLayout.StackedNonNegative | src/tree/column.c:405-450 | the same for a stacked column |
| ColumnLayout.StackedFillsColumn | src/tree/column.c:405-450 | before rounding, the children of a stacked column, with one open or with a preview, add up to its height |
| ColumnLayout.ShownNearestToAnchor | src/tree/column.c:311-370 | the preview that shows has its baseline as near to the anchor as it would have in any gap |
| ColumnLayout.BaselineIs | src/tree/column.c:309-311 | the baseline is the dragged window's, scaled by the preview's fraction and rounded to whole pixels |
| ColumnLayout.MisledIff | src/tree/column.c:316-358 | the heights of a column let some cursor over it make the test miss the nearest gap if and only if two gaps and the sums probed on the way leave room for an anchor that does |
| ColumnLayout.NonNegativeNeverMisleads | src/tree/column.c:316-358 | non-negative heights leave none |
| ColumnLayout.NegativeHeightsMislead | src/tree/column.c:290-345 | a split column of height 30 with two windows, and a cursor over it, where the preview goes to the top although the gap at the end is exactly at the cursor |
| ColumnLayout.CursorMeaning | src/tree/column.c:331-370 | what the running offset and the inserted flag mean at each child, and that the preview goes in exactly at its gap |
| ColumnLayout.Column.PlaceChildren | src/tree/column.c:331-381 | the loop puts every child and the preview where the stack has them, and names the child before the preview as its target |
| ColumnLayout.Column.ArrangeSplit | src/tree/column.c:275-387 | a split column: heights by share, nothing shaded, preview in the nearest gap |
| ColumnLayout.Column.ArrangeStacked | src/tree/column.c:389-504 | a stacked column: only the active child unrolled, and none while a preview shows |
| StableSort.SortSorted | src/list.c:139-182 | the sort's result is sorted, for every total preorder |
| StableSort.SortPermutes | src/list.c:139-182 | it is a permutation |
| StableSort.SortStable | src/list.c:139-182 | items that compare equal keep their order |
| StableSort.StableSortUnique | src/list.c:139-182 | there is only one sorted stable permutation, so these three say everything |
| StableSort.InversionsOfHalves | src/list.c:161-175 | the inversions of a list are those of its halves and those between them, which sorting the halves does not change |
| Lists.List.StableSort | src/list.c:177-182 | the in-place sort gives the stable sort of the list, and the shifts it makes are exactly the inversions it had |
| Lists.List.InplaceMerge | src/list.c:139-159 | merges two sorted runs in place, stably, shifting once per inversion between them |
| Lists.List.InplaceSort | src/list.c:161-175 | sorts a run in place with as many shifts and swaps as it has inversions |
| Lists.List.Rotate | src/list.c:127-137 | moves an item down and shifts those between by one |
| Lists.List.Insert | src/list.c:47-53 | inserts at the index and keeps the order of the others |
| Lists.List.Delete | src/list.c:55-59 | removes at the index and keeps the order of the others |
| Lists.List.Find | src/list.c:97-105 | the first index, or -1 exactly if the item is absent |
| Lists.List.MoveToEnd | src/list.c:114-125 | the item goes last, the others keep their order |
| Lists.List.Cat | src/list.c:74-79 | appends another list's items and leaves that list alone |
| WorkspaceOrder.EveryRunIsOrdered | src/tree/workspace.c:273-335 | after every run numbered workspaces come first by number, ties stand in order of creation, and the active one is in the list |
| WorkspaceOrder.CreateKeepsOrder | src/tree/workspace.c:318-323 | adding a workspace and sorting keeps the order |
| WorkspaceOrder.DestroyedIff | src/tree/workspace.c:364-397 | considering a listed workspace removes it if and only if it is empty and not active, and removes no other |
| WorkspaceOrder.CreatedIsListed | src/tree/workspace.c:318-328 | a workspace that is created is in the list, with all others, and shows if and only if none did |
| WorkspaceOrder.NamedByNumber | src/tree/workspace.c:273-288 | a name that starts with a number written out is ordered by that number if and only if it fits a C int |
| WorkspaceOrder.LargeNumbersComeFirst | src/tree/workspace.c:273-288 | names of numbers from 2147483648 to 4294967295 come before those of all that fit |
| WorkspaceOrder.CompareIsPreorder | src/tree/workspace.c:273-288 | the comparator is a total preorder, truncated numbers included |
| WorkspaceOrder.RootList.WorkspaceCreate | src/tree/workspace.c:290-335 | the list object does what the machine says |
| Args.SplitUndoesJoin | src/stringop.c:90-141 | splitting a joined list gives it back if and only if it is well formed |
| Args.SplitJoinSplit | src/stringop.c:235-252 | joining and splitting again gives the same tokens, for every string with a token |
| Args.TokensWellFormed | src/stringop.c:90-141 | every split gives well-formed tokens |
| Args.TokensEmpty | src/stringop.c:90-141 | there is no token if and only if there is only whitespace |
| Quoting.PartsAreOneToken | src/stringop.c:90-141 | any sequence of plain and escaped characters, text in either quotes, and text in brackets with these in it, is one token, whatever whitespace it holds |
| Quoting.WhitespaceTakesApart | src/stringop.c:90-141 | any whitespace behind such a token ends it, and what follows is split on its own |
| Quoting.OpenQuoteTakesTheRest | src/stringop.c:90-141 | a quote that is not closed takes everything up to the end |
| Quoting.OpenBracketTakesTheRest | src/stringop.c:90-141 | and so does a bracket |
| Args.SplitArgs | src/stringop.c:90-141 | the scanner loop computes the tokens |
| Args.JoinArgs | src/stringop.c:235-252 | the buffer holds the arguments joined by single spaces, and a final zero |
| Variables.FirstMatchIsLongest | src/config.c:831-836 | in an ordered list the first symbol that matches has the longest defined name that is a prefix |
| Variables.WrittenTextIsNotRead | src/config.c:850-857 | what was inserted stays as it is, and what follows depends on at most its last two characters |
| Variables.PlainIsCopied | src/config.c:811-864 | text without a dollar is copied |
| Variables.EscapedDollarStays | src/config.c:816-822 | a dollar behind a single backslash is copied and starts no name |
| Variables.DoubledDollarIsOne | src/config.c:823-830 | of two dollars that are not escaped one is left, and it starts no name |
| Variables.NameBecomesValue | src/config.c:831-857 | a defined name that no longer one extends there is replaced by its value, which is not read again |
| Variables.LoneDollarStays | src/config.c:858-860 | a dollar that starts no defined name is copied |
| Variables.SymbolTable.DoVarReplacement | src/config.c:811-864 | the buffer rewriting equals the left-to-right expansion by the longest defined name at each unescaped dollar |
| Variables.SymbolTable.CmdSet | src/commands/set.c:34-70 | succeeds if and only if there are a name with a dollar and a value; then exactly that name is redefined and the list stays ordered |
| Variables.SortedIsOrdered | src/commands/set.c:17-22 | however ties are sorted, names stay unique, longest first, with the same definitions |
| SeatConfigs.EveryHistoryIsFaithful | src/config/seat.c:47-93 | after every history names are unique, a name is stored if and only if it was mentioned, and its configuration is the fold of everything said about it and about all seats, in order |
| SeatConfigs.MergeAssociative | src/config/seat.c:131-185 | merging is associative, the order of attachments included |
| SeatConfigs.FreshIsIdentity | src/config/seat.c:21-45 | a fresh configuration is a left identity exactly for well-formed ones |
| SeatConfigs.UnionAssociative | src/config/seat.c:139-156 | the ordered union of attachments is associative |
| SeatConfigs.UnionMembers | src/config/seat.c:139-156 | the union has exactly the attachments of both |
| SeatConfigs.LaterSettingsWin | src/config/seat.c:131-185 | after every history each setting stored for a seat is the one said last about that seat or about all seats, and the default if none was; cursor theme and size go together |
| SeatConfigs.AttachmentsAreAll | src/config/seat.c:139-156 | the attachments stored for a seat are exactly those said of it or of all seats |
| SeatConfigs.UnionExtends | src/config/seat.c:139-156 | merging leaves the attachments that were there where they are, repeats none, and adds new ones in the order they come in |
| SeatConfigs.SeatConfig.Merge | src/config/seat.c:131-185 | the in-place merge does what Merged says |
| SeatConfigs.SeatConfigList.Store | src/config/seat.c:58-93 | the list object does what Stored says |
| Keyboard.EveryRunIsSorted | src/input/keyboard.c:162-236 | after every run the entries are ascending, at most 32, and hold the bag that the order-free model holds |
| Keyboard.UpdatedIs | src/input/keyboard.c:214-236 | one update does to the bag what the model says, with the erasure of a modifier first |
| Keyboard.BagStepIsDeterministic | src/input/keyboard.c:214-236 | the bag model leaves nothing open |
| Keyboard.UpdateReports | src/input/keyboard.c:214-236 | the current key is the one just pressed if there was room, none after a release or a forgotten modifier, and else as before; a release reports its key found if and only if it was still held |
| Keyboard.ErasedBag | src/input/keyboard.c:162-184 | erasing removes all entries of the keycode and no others |
| Keyboard.ErasedNothing | src/input/keyboard.c:162-184 | erasing changes nothing if and only if no entry has the keycode |
| Keyboard.ShortcutState.EraseKey | src/input/keyboard.c:162-184 | the compaction of both arrays, zeros behind, and found if and only if an entry had the keycode |
| Keyboard.ShortcutState.AddKey | src/input/keyboard.c:190-209 | the parallel insertion before the first key that is not smaller, or nothing when full |
| Keyboard.ShortcutState.UpdateShortcutState | src/input/keyboard.c:214-236 | the arrays do what Updated says and stay valid |
| KeyForwarding.ForwardingIsSound | src/input/keyboard.c:563-620 | with at most 32 keys down: the client holds exactly the recorded keys, all of them are down, it sees press and release by turns, and as many releases as presses once a key is up |
| KeyForwarding.ClientSees | src/input/keyboard.c:563-620 | in every run with at most 32 keys down an event appends to what the client was sent exactly the press, if no binding took it and no grab holds it, or the release, if the client holds the key |
| KeyForwarding.FreePressesAreSent | src/input/keyboard.c:598-620 | in any state, a press that a binding took or a grab holds is neither sent nor recorded, and any other is sent |
| KeyForwarding.HeldKeysAreReleased | src/input/keyboard.c:587-599 | a release is sent if and only if the client holds the key, whatever bindings and grabs there are by then |
| KeyForwarding.AgreementBreaks | src/input/keyboard.c:563-620 | one event keeps client and record in agreement if and only if it is not a forwarded press past 32 recorded keys |
| KeyForwarding.KeyIsStuck | src/input/keyboard.c:563-620 | from the idle state: 33 keys go down and the last goes up, and the client still holds it |
| KeyForwarding.PressesAndReleases | src/input/keyboard.c:563-620 | in an alternating log every press but one still held has its release |
| KeyForwarding.Forwarder.HandleKeyEvent | src/input/keyboard.c:477-623 | the handler does what Handle says: it sends a press if and only if no binding took it and no grab holds it |
| Bindings.FindsTheRightBinding | src/input/keyboard.c:499-548 | the three searches end with a binding if and only if one is eligible; it names the device if and only if some eligible one does, and is for the active layout if and only if some such one is |
| Bindings.ChosenFits | src/input/keyboard.c:242-333 | a binding that is chosen has the modifiers, the kind of event, the device or any, the layout or any, and all held keys in order or the one key just pressed; with the session locked or shortcuts inhibited it is one meant for that |
| Bindings.FittingIsFound | src/input/keyboard.c:242-333 | if some binding fits in all these ways, one is chosen |
| Bindings.AllFoundIsChoice | src/input/keyboard.c:242-333 | the searches choose as if from all candidates at once: of the highest rank, the first if they are for the active layout, else the first with the lock state asked for, else the first with the inhibition state, else the first |
| Bindings.FirstExactIsChosen | src/input/keyboard.c:304-310 | if a candidate names the device and the active layout, the first that does is chosen, whatever its flags |
| Bindings.LockStateIsMet | src/input/keyboard.c:312-315 | when a candidate of the highest rank has the lock state asked for, the choice has it if and only if those are for any layout or the first of them has it |
| Bindings.InhibitionIsMet | src/input/keyboard.c:317-322 | the same for the inhibition state: it is met if and only if the first for the active layout, or the first for any with the lock state, has it too, or there is neither |
| Bindings.PreferencesStopEarly | src/input/keyboard.c:300-321 | a list where the lock state is not met, and one where the inhibition state is not |
| Bindings.GetActiveBinding | src/input/keyboard.c:242-333 | the loop computes Found |
| Bindings.FindBinding | src/input/keyboard.c:499-548 | the three calls compute AllFound |

## Left out

- wlroots, Wayland, xkb, drawing and process calls, scene graph, logging and allocation failure: replaced by nothing, or by parameters (the spare column and window objects of `TreeActions` are what column_create and window_create return).
- Objects of a transaction run are a fixed set; creating one is an object that was never dirty before. Freeing dead objects and the claim that they are ever freed are not modelled.
- Configure serials are fresh, as xdg_surface.configure in the xdg-shell protocol demands; a serial taken by someone else is an event of the run.
- What other code does inside a signal of the transaction manager is a script of arbitrary edits to pending state and dirty flags.
- Dirty flags are in the transaction model and not in the tree model; the pointers of the tree are in the tree model and not in the transaction model.
- The order of the root's workspace list is modelled in `WorkspaceOrder` only; in the tree it is a set.
- Fullscreen windows in the tree, output hotplug and window_evacuate. Whether there is an output in a direction is a parameter of the move.
- What the program does after a drop put a window in a column that hangs nowhere, or after a failed assertion: such a run ends there.
- A drag is modelled from its threshold on; what comes before is a focus event. Where the cursor is, and so which column it hovers over, is a parameter of each drag event, and there is one seat.
- arrange_tiling on several outputs at once: the remainder test uses the index among all columns, so the layout properties are for one output.
- Floating-point rounding: double is modelled as real, and round as half away from zero.
- Resize.WindowResizeTiledHorizontal: the vertical resize of src/commands/resize.c is not modelled.
- ColumnLayout.Column.ArrangeSplit: height fractions are positive, as they are when windows are created; horizontal positions and dirty flags are left out.
- qsort is any sort that puts longer names first; wildcard matching, unescape_string, argsep, themes, cursors, tablets, layer shell, xwayland and input-config merging are not modelled.
- Compositor bindings, binding execution, key repeat and keyboard groups: whether a binding took an event, and whether an input method holds the keyboard, are parameters of each event.
