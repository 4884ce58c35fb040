/**
 * The transaction protocol as a machine over values: src/tree/transaction.c
 * together with the commit, apply and after-apply handlers of the tree objects
 * and the configure/acknowledge side of an xdg-shell view.
 *
 * The module TransactionManager holds the same protocol as it is written, over
 * objects on the heap, and proves each of its methods equal to a function here.
 */
module Transaction {
  import opened Seqs

  datatype Phase = Idle | BeforeCommit | Commit | WaitingConfirm | Apply | AfterApply

  /** One of the three copies that a tree object keeps of its state. */
  datatype Snapshot<O> =
    | WindowState(x: real, y: real, width: real, height: real, shaded: bool, focused: bool,
                  contentWidth: real, contentHeight: real, dead: bool)
    | ColumnState(x: real, y: real, width: real, height: real, children: seq<O>,
                  showPreview: bool, previewTarget: Option<O>, dead: bool)
    | WorkspaceState(floating: seq<O>, columns: seq<O>, focused: bool, dead: bool)

  /** What a view last asked of its client, or would ask now. */
  datatype ViewConfig = ViewConfig(resizing: bool, tiled: bool, fullscreen: bool, width: real, height: real)

  /** The live fields of a window that its view reads when the window commits. */
  datatype Live = Live(visible: bool, resizing: bool, tiled: bool, fullscreen: bool)

  datatype Object<O> = Object(
    isWindow: bool,
    dirty: bool,
    pending: Snapshot<O>,
    committed: Snapshot<O>,
    current: Snapshot<O>,
    isConfiguring: bool,
    live: Live,
    forceReconfigure: bool,
    configured: ViewConfig,
    configureSerial: nat)

  /** Which transaction sent a configure, and to whom. */
  datatype Sent<O> = Sent(receiver: O, transaction: nat)

  datatype Manager<O(==)> = Manager(
    phase: Phase,
    queued: bool,
    idle: bool,                       // handle_commit is scheduled
    timer: bool,                      // handle_timeout is armed
    numConfigures: nat,
    numWaiting: nat,
    commitListeners: seq<O>,
    applyListeners: seq<O>,
    afterApplyListeners: seq<O>,
    noatomic: bool,
    txnWait: bool,
    objects: map<O, Object<O>>,
    lastSerial: nat,
    transaction: nat,                 // how many commits have started
    sent: map<nat, Sent<O>>)          // every configure ever sent, by serial

  /** Something outside the protocol writes to a tree object. */
  datatype Change<O> =
    | SetPending(pending: Snapshot<O>)
    | SetLive(live: Live)
    | ForceReconfigure
    | SetDirty

  datatype Edit<O> = Edit(target: O, change: Change<O>)

  /**
   * What everything outside the protocol does while a callback of the manager
   * runs: in the before-commit signal, in each window's commit signal, after
   * each apply listener and in the after-apply signal.
   */
  datatype Script<O> = Script(
    beforeCommit: seq<Edit<O>>,
    duringCommit: seq<seq<Edit<O>>>,
    timerCreated: bool,
    duringApply: seq<seq<Edit<O>>>,
    afterApply: seq<Edit<O>>)

  const TXN_WAIT_INFLATION: nat := 1000000

  // ---------------------------------------------------------------------
  // Queueing and dirty flags
  // ---------------------------------------------------------------------

  function EnsureQueued<O>(m: Manager<O>): Manager<O> {
    m.(queued := true, idle := m.idle || m.phase.Idle?)
  }

  function MarkDirty<O>(m: Manager<O>, o: O): Manager<O>
    requires o in m.objects
  {
    if m.objects[o].dirty then m
    else EnsureQueued(m.(objects := m.objects[o := m.objects[o].(dirty := true)],
                         commitListeners := m.commitListeners + [o]))
  }

  function Rewrite<O>(b: Object<O>, change: Change<O>): Object<O> {
    match change
    case SetPending(s) => b.(pending := s)
    case SetLive(l) => b.(live := l)
    case ForceReconfigure => b.(forceReconfigure := true)
    case SetDirty => b
  }

  function ApplyEdit<O>(m: Manager<O>, e: Edit<O>): Manager<O> {
    if e.target !in m.objects then m
    else if e.change.SetDirty? then MarkDirty(m, e.target)
    else m.(objects := m.objects[e.target := Rewrite(m.objects[e.target], e.change)])
  }

  function ApplyEdits<O>(m: Manager<O>, es: seq<Edit<O>>): Manager<O>
    decreases |es|
  {
    if es == [] then m else ApplyEdits(ApplyEdit(m, es[0]), es[1..])
  }

  function Head<T>(s: seq<seq<T>>): seq<T> { if s == [] then [] else s[0] }

  function Tail<T>(s: seq<seq<T>>): seq<seq<T>> { if s == [] then [] else s[1..] }

  // ---------------------------------------------------------------------
  // Commit
  // ---------------------------------------------------------------------

  function BeginConfigure<O>(m: Manager<O>, o: O): Manager<O>
    requires o in m.objects
  {
    if m.objects[o].isConfiguring then m
    else m.(numWaiting := m.numWaiting + 1,
            objects := m.objects[o := m.objects[o].(isConfiguring := true)])
  }

  function Wanted<O>(b: Object<O>): ViewConfig {
    ViewConfig(b.live.resizing, b.live.tiled, b.live.fullscreen,
               if b.pending.WindowState? then b.pending.contentWidth else 0.0,
               if b.pending.WindowState? then b.pending.contentHeight else 0.0)
  }

  /** The view records what it asks for and sends it with a fresh serial. */
  function SendConfigure<O>(m: Manager<O>, o: O): Manager<O>
    requires o in m.objects
  {
    var b := m.objects[o];
    var serial := m.lastSerial + 1;
    m.(objects := m.objects[o := b.(forceReconfigure := false, configured := Wanted(b), configureSerial := serial)],
       lastSerial := serial,
       sent := m.sent[serial := Sent(o, m.transaction)])
  }

  /** The view's listener on its window's commit signal. */
  function ViewCommit<O>(m: Manager<O>, o: O): Manager<O>
    requires o in m.objects
  {
    var b := m.objects[o];
    if !b.live.visible || (!b.forceReconfigure && Wanted(b) == b.configured) then m
    else BeginConfigure(SendConfigure(m, o), o)
  }

  /** The object leaves the commit signal and joins the apply signal. */
  function Enlist<O>(m: Manager<O>, o: O): Manager<O>
    requires o in m.objects && m.commitListeners != []
  {
    m.(commitListeners := m.commitListeners[1..],
       applyListeners := m.applyListeners + [o],
       objects := m.objects[o := m.objects[o].(dirty := false)])
  }

  function CopyPending<O>(m: Manager<O>, o: O): Manager<O> {
    if o in m.objects then
      m.(objects := m.objects[o := m.objects[o].(committed := m.objects[o].pending)])
    else m
  }

  /** A window's own commit signal: its view listens, and so may others. */
  function NotifyCommit<O>(m: Manager<O>, o: O, es: seq<Edit<O>>): Manager<O>
    requires o in m.objects
  {
    if m.objects[o].isWindow then ApplyEdits(ViewCommit(m, o), es) else m
  }

  /** The object's own listener on the manager's commit signal. */
  function CommitListener<O>(m: Manager<O>, es: seq<Edit<O>>): Manager<O>
    requires m.commitListeners != [] && m.commitListeners[0] in m.objects
  {
    var o := m.commitListeners[0];
    CopyPending(NotifyCommit(Enlist(m, o), o, es), o)
  }

  /** Calls the first n listeners; those added meanwhile sit behind them and wait. */
  function EmitCommit<O>(m: Manager<O>, n: nat, scripts: seq<seq<Edit<O>>>): Manager<O>
    decreases n
  {
    if n == 0 || m.commitListeners == [] || m.commitListeners[0] !in m.objects then m
    else EmitCommit(CommitListener(m, Head(scripts)), n - 1, Tail(scripts))
  }

  // ---------------------------------------------------------------------
  // Apply
  // ---------------------------------------------------------------------

  function ApplyListener<O>(m: Manager<O>, es: seq<Edit<O>>): Manager<O>
    requires m.applyListeners != [] && m.applyListeners[0] in m.objects
  {
    var o := m.applyListeners[0];
    var b := m.objects[o];
    ApplyEdits(
      m.(applyListeners := m.applyListeners[1..],
         afterApplyListeners := if b.committed.dead then m.afterApplyListeners + [o] else m.afterApplyListeners,
         objects := m.objects[o := b.(isConfiguring := false, current := b.committed)]),
      es)
  }

  function EmitApply<O>(m: Manager<O>, n: nat, scripts: seq<seq<Edit<O>>>): Manager<O>
    decreases n
  {
    if n == 0 || m.applyListeners == [] || m.applyListeners[0] !in m.objects then m
    else EmitApply(ApplyListener(m, Head(scripts)), n - 1, Tail(scripts))
  }

  function FinishTransaction<O>(m: Manager<O>): Manager<O> {
    m.(phase := Idle, idle := m.idle || m.queued)
  }

  function Progress<O>(m: Manager<O>, script: Script<O>): Manager<O> {
    if m.numWaiting > 0 then m
    else
      var m1 := m.(numConfigures := 0, phase := Apply);
      var m2 := EmitApply(m1, |m1.applyListeners|, script.duringApply);
      var m3 := ApplyEdits(m2.(phase := AfterApply), script.afterApply);
      FinishTransaction(m3.(afterApplyListeners := []))
  }

  // ---------------------------------------------------------------------
  // The callbacks of the event loop
  // ---------------------------------------------------------------------

  /** From the start of handle_commit to the end of the commit signal. */
  function CommitPart<O>(m: Manager<O>, script: Script<O>): Manager<O> {
    var m1 := ApplyEdits(m.(idle := false, phase := BeforeCommit, transaction := m.transaction + 1),
                         script.beforeCommit);
    var m2 := m1.(queued := false, phase := Commit);
    EmitCommit(m2, |m2.commitListeners|, script.duringCommit)
  }

  /** The rest of handle_commit, up to the call of transaction_progress. */
  function ArmPart<O>(m: Manager<O>, script: Script<O>): Manager<O> {
    var waiting := if m.noatomic then 0
                   else if m.txnWait then m.numWaiting + TXN_WAIT_INFLATION else m.numWaiting;
    m.(phase := WaitingConfirm,
       numConfigures := m.numWaiting,
       timer := waiting > 0 && script.timerCreated,
       numWaiting := if script.timerCreated then waiting else 0)
  }

  function HandleCommit<O>(m: Manager<O>, script: Script<O>): Manager<O> {
    Progress(ArmPart(CommitPart(m, script), script), script)
  }

  function HandleTimeout<O>(m: Manager<O>, script: Script<O>): Manager<O> {
    Progress(m.(timer := false, numWaiting := 0), script)
  }

  function ReleaseLock<O>(m: Manager<O>, script: Script<O>): Manager<O>
    requires m.numWaiting > 0
  {
    Progress(m.(numWaiting := m.numWaiting - 1, timer := m.timer && m.numWaiting > 1), script)
  }

  /** Whether a surface commit that carries this serial ends the window's configure. */
  predicate Releases<O>(m: Manager<O>, o: O, serial: nat) {
    o in m.objects && m.objects[o].isConfiguring &&
    m.objects[o].configureSerial != 0 && serial == m.objects[o].configureSerial
  }

  /** The client commits its surface, having last acknowledged the given serial. */
  function SurfaceCommit<O>(m: Manager<O>, o: O, serial: nat, script: Script<O>): Manager<O> {
    if Releases(m, o, serial) && m.numWaiting > 0
    then ReleaseLock(m.(objects := m.objects[o := m.objects[o].(isConfiguring := false)]), script)
    else m
  }

  datatype Event<O> =
    | Changed(edit: Edit<O>)
    | IdleFires(script: Script<O>)
    | Acknowledged(window: O, serial: nat, ackScript: Script<O>)
    | TimerFires(timeoutScript: Script<O>)
    | SerialTaken                       // the display hands a serial to someone else

  function Step<O>(m: Manager<O>, e: Event<O>): Manager<O> {
    match e
    case Changed(edit) => ApplyEdit(m, edit)
    case IdleFires(script) => if m.idle then HandleCommit(m, script) else m
    case Acknowledged(o, serial, script) => SurfaceCommit(m, o, serial, script)
    case TimerFires(script) => if m.timer then HandleTimeout(m, script) else m
    case SerialTaken => m.(lastSerial := m.lastSerial + 1)
  }

  function Run<O>(m: Manager<O>, es: seq<Event<O>>): Manager<O>
    decreases |es|
  {
    if es == [] then m else Step(Run(m, es[..|es| - 1]), es[|es| - 1])
  }
}
