/**
 * The transaction protocol as it is written: callbacks that update the manager
 * and the tree objects in place. Every method equals a function of the module
 * Transaction, so what is proved about runs there holds of these methods; the
 * assertions of the source are the preconditions of the small methods, and the
 * callbacks need nothing but the invariant to meet them.
 */
module TransactionManager {
  import opened Seqs
  import opened Transaction
  import opened TransactionSafety

  /** The part of a window, column or workspace that takes part in transactions. */
  class TreeObject {
    const isWindow: bool
    var dirty: bool
    var pending: Snapshot<TreeObject>
    var committed: Snapshot<TreeObject>
    var current: Snapshot<TreeObject>

    // Windows and their views only.
    var isConfiguring: bool
    var live: Live
    var forceReconfigure: bool
    var configured: ViewConfig
    var configureSerial: nat

    constructor (isWindow: bool, blank: Snapshot<TreeObject>)
      ensures Value() == Object(isWindow, false, blank, blank, blank, false, Live(false, false, false, false),
                                false, ViewConfig(false, false, false, 0.0, 0.0), 0)
    {
      this.isWindow := isWindow;
      dirty, isConfiguring, forceReconfigure, configureSerial := false, false, false, 0;
      pending, committed, current := blank, blank, blank;
      live := Live(false, false, false, false);
      configured := ViewConfig(false, false, false, 0.0, 0.0);
    }

    function Value(): Object<TreeObject>
      reads this
    {
      Object(isWindow, dirty, pending, committed, current, isConfiguring, live, forceReconfigure, configured,
             configureSerial)
    }
  }

  class Manager {
    var phase: Phase
    var queued: bool
    var idle: bool
    var timer: bool
    var numConfigures: nat
    var numWaiting: nat
    var commitListeners: seq<TreeObject>
    var applyListeners: seq<TreeObject>
    var afterApplyListeners: seq<TreeObject>
    const noatomic: bool
    const txnWait: bool
    var lastSerial: nat

    ghost const objects: set<TreeObject>
    ghost var transaction: nat
    ghost var sent: map<nat, Sent<TreeObject>>

    ghost function Objects(): map<TreeObject, Object<TreeObject>>
      reads objects
    {
      map o | o in objects :: o.Value()
    }

    ghost function State(): Transaction.Manager<TreeObject>
      reads this, objects
    {
      Transaction.Manager(phase, queued, idle, timer, numConfigures, numWaiting, commitListeners, applyListeners,
              afterApplyListeners, noatomic, txnWait, Objects(), lastSerial, transaction, sent)
    }

    constructor (ghost objects: set<TreeObject>, noatomic: bool, txnWait: bool)
      requires forall o :: o in objects ==> !o.dirty && !o.isConfiguring && o.current == o.committed
      ensures this.objects == objects && this.noatomic == noatomic && this.txnWait == txnWait
      ensures Init(State())
    {
      phase, queued, idle, timer, numConfigures, numWaiting := Idle, false, false, false, 0, 0;
      commitListeners, applyListeners, afterApplyListeners := [], [], [];
      this.noatomic, this.txnWait, lastSerial := noatomic, txnWait, 0;
      this.objects, transaction, sent := objects, 0, map[];
    }

    ghost predicate InScope(es: seq<Edit<TreeObject>>) {
      forall i :: 0 <= i < |es| ==> es[i].target in objects
    }

    ghost predicate AllInScope(scripts: seq<seq<Edit<TreeObject>>>) {
      forall i :: 0 <= i < |scripts| ==> InScope(scripts[i])
    }

    ghost predicate ScriptInScope(script: Script<TreeObject>) {
      && InScope(script.beforeCommit) && AllInScope(script.duringCommit)
      && AllInScope(script.duringApply) && InScope(script.afterApply)
    }

    // -------------------------------------------------------------------

    method EnsureQueued()
      modifies this
      ensures State() == Transaction.EnsureQueued(old(State()))
    {
      queued := true;
      if phase == Idle && !idle {
        idle := true;
      }
    }

    method SetDirty(o: TreeObject)
      requires o in objects
      modifies this, objects
      ensures State() == MarkDirty(old(State()), o)
    {
      if o.dirty {
        return;
      }
      o.dirty := true;
      commitListeners := commitListeners + [o];
      assert Objects() == old(Objects())[o := o.Value()];
      EnsureQueued();
    }

    method PerformEdit(e: Edit<TreeObject>)
      requires e.target in objects
      modifies this, objects
      ensures State() == ApplyEdit(old(State()), e)
    {
      match e.change
      case SetPending(s) => e.target.pending := s;
      case SetLive(l) => e.target.live := l;
      case ForceReconfigure => e.target.forceReconfigure := true;
      case SetDirty => SetDirty(e.target);
    }

    method PerformEdits(es: seq<Edit<TreeObject>>)
      requires InScope(es)
      modifies this, objects
      ensures State() == ApplyEdits(old(State()), es)
    {
      for i := 0 to |es|
        invariant ApplyEdits(State(), es[i..]) == ApplyEdits(old(State()), es)
      {
        PerformEdit(es[i]);
      }
    }

    // -------------------------------------------------------------------

    method AcquireCommitLock()
      requires phase == Commit
      modifies this
      ensures State() == old(State()).(numWaiting := old(numWaiting) + 1)
    {
      numWaiting := numWaiting + 1;
    }

    method WindowBeginConfigure(o: TreeObject)
      requires o in objects && phase == Commit
      modifies this, o
      ensures State() == BeginConfigure(old(State()), o)
    {
      if o.isConfiguring {
        return;
      }
      AcquireCommitLock();
      o.isConfiguring := true;
      assert Objects() == old(Objects())[o := o.Value()];
    }

    /** The view brings what it asks for up to date and says whether that differs from before. */
    method ViewUpdateConfigured(o: TreeObject) returns (changed: bool)
      requires o in objects
      modifies o
      ensures changed == (old(o.forceReconfigure) || Wanted(old(o.Value())) != old(o.configured))
      ensures o.Value() == old(o.Value()).(forceReconfigure := false, configured := Wanted(old(o.Value())))
    {
      changed := false;
      if o.forceReconfigure {
        o.forceReconfigure := false;
        changed := true;
      }
      var updated;
      updated, o.configured := UpdateConfig(o.configured, Wanted(o.Value()));
      changed := changed || updated;
    }

    /** Takes over, setting by setting, what is wanted; whether anything was different. */
    method UpdateConfig(was: ViewConfig, wanted: ViewConfig) returns (changed: bool, configured: ViewConfig)
      ensures changed == (wanted != was) && configured == wanted
    {
      changed, configured := false, was;
      if wanted.resizing != configured.resizing {
        configured := configured.(resizing := wanted.resizing);
        changed := true;
      }
      if wanted.tiled != configured.tiled {
        configured := configured.(tiled := wanted.tiled);
        changed := true;
      }
      if wanted.fullscreen != configured.fullscreen {
        configured := configured.(fullscreen := wanted.fullscreen);
        changed := true;
      }
      if wanted.width != configured.width || wanted.height != configured.height {
        configured := configured.(width := wanted.width, height := wanted.height);
        changed := true;
      }
    }

    method ViewHandleWindowCommit(o: TreeObject)
      requires o in objects && phase == Commit
      modifies this, o
      ensures State() == ViewCommit(old(State()), o)
    {
      if !o.live.visible {
        return;
      }
      var changed := ViewConfigure(o);
      if changed {
        WindowBeginConfigure(o);
      }
    }

    /** Sends a configure if there is anything to ask for. */
    method ViewConfigure(o: TreeObject) returns (changed: bool)
      requires o in objects
      modifies this, o
      ensures changed == (old(o.forceReconfigure) || Wanted(old(o.Value())) != old(o.configured))
      ensures changed ==> State() == SendConfigure(old(State()), o)
      ensures !changed ==> State() == old(State())
      ensures phase == old(phase)
    {
      hide Wanted, SendConfigure, Refreshed, WithSerial;
      RefreshesAndSends(State(), o);
      changed := RefreshConfigured(o);
      if changed {
        SendWithSerial(o);
      }
    }

    /** The two steps of sending a configure: what is asked for is noted, and then numbered. */
    ghost function Refreshed(m: Transaction.Manager<TreeObject>, o: TreeObject): (m': Transaction.Manager<TreeObject>)
      requires o in m.objects
      ensures o in m'.objects
    {
      var b := m.objects[o];
      m.(objects := m.objects[o := b.(forceReconfigure := false, configured := Wanted(b))])
    }

    ghost function WithSerial(m: Transaction.Manager<TreeObject>, o: TreeObject): Transaction.Manager<TreeObject>
      requires o in m.objects
    {
      var serial := m.lastSerial + 1;
      m.(objects := m.objects[o := m.objects[o].(configureSerial := serial)],
         lastSerial := serial,
         sent := m.sent[serial := Sent(o, m.transaction)])
    }

    lemma RefreshesAndSends(m: Transaction.Manager<TreeObject>, o: TreeObject)
      requires o in m.objects
      ensures WithSerial(Refreshed(m, o), o) == SendConfigure(m, o)
    {
      hide Wanted;
    }

    /** What the view asks for is up to date; if it was before, nothing changed. */
    method RefreshConfigured(o: TreeObject) returns (changed: bool)
      requires o in objects
      modifies o
      ensures changed == (old(o.forceReconfigure) || Wanted(old(o.Value())) != old(o.configured))
      ensures State() == Refreshed(old(State()), o)
      ensures !changed ==> State() == old(State())
      ensures phase == old(phase)
    {
      hide Wanted;
      ghost var b := o.Value();
      changed := ViewUpdateConfigured(o);
      assert !changed ==> o.Value() == b;
      assert Objects() == old(Objects())[o := o.Value()];
    }

    /** The configure event takes the next serial of the display. */
    method SendWithSerial(o: TreeObject)
      requires o in objects
      modifies `lastSerial, `sent, o`configureSerial
      ensures State() == WithSerial(old(State()), o)
    {
      lastSerial := lastSerial + 1;
      o.configureSerial := lastSerial;
      sent := sent[lastSerial := Sent(o, transaction)];
      assert Objects() == old(Objects())[o := o.Value()];
    }

    /** The object's listener leaves the commit signal and joins the apply signal. */
    method JoinTransaction(o: TreeObject)
      requires o in objects && commitListeners != [] && commitListeners[0] == o
      modifies this, o
      ensures State() == Enlist(old(State()), o) && phase == old(phase)
    {
      commitListeners := commitListeners[1..];
      o.dirty := false;
      applyListeners := applyListeners + [o];
      assert Objects() == old(Objects())[o := o.Value()];
    }

    /** A window's commit signal; its view is the first listener. */
    method EmitWindowCommit(o: TreeObject, es: seq<Edit<TreeObject>>)
      requires o in objects && InScope(es) && phase == Commit
      modifies this, objects
      ensures State() == NotifyCommit(old(State()), o, es) && phase == Commit
    {
      if o.isWindow {
        ViewHandleWindowCommit(o);
        EditsOnlyEdit(State(), es);
        PerformEdits(es);
      }
    }

    /** The copy of pending to committed; the lists in them are copied by value. */
    method CopyState(o: TreeObject)
      requires o in objects
      modifies o
      ensures State() == CopyPending(old(State()), o) && phase == old(phase)
    {
      o.committed := o.pending;
      assert Objects() == old(Objects())[o := o.Value()];
    }

    /** window_handle_transaction_commit; columns and workspaces have nothing to notify. */
    method HandleTransactionCommit(o: TreeObject, es: seq<Edit<TreeObject>>)
      requires o in objects && InScope(es) && phase == Commit
      requires commitListeners != [] && commitListeners[0] == o
      modifies this, objects
      ensures State() == CommitListener(old(State()), es) && phase == Commit
    {
      hide NotifyCommit, CopyPending, Enlist;
      JoinTransaction(o);
      EmitWindowCommit(o, es);
      CopyState(o);
    }

    /** What the object does on apply before anything else runs. */
    method ShowCommittedState(o: TreeObject)
      requires o in objects && applyListeners != [] && applyListeners[0] == o
      modifies this, o
      ensures State() == ShowCommitted(old(State()))
    {
      applyListeners := applyListeners[1..];
      o.isConfiguring := false;
      if o.committed.dead {
        afterApplyListeners := afterApplyListeners + [o];
      }
      o.current := o.committed;
      assert Objects() == old(Objects())[o := o.Value()];
    }

    /** window_handle_transaction_apply, and the same for columns and workspaces. */
    method HandleTransactionApply(o: TreeObject, es: seq<Edit<TreeObject>>)
      requires o in objects && InScope(es)
      requires applyListeners != [] && applyListeners[0] == o
      modifies this, objects
      ensures State() == ApplyListener(old(State()), es)
    {
      ShowCommittedState(o);
      PerformEdits(es);
    }

    /** Frees the object in the source; the assertion is that it was shown dead. */
    method HandleTransactionAfterApply(o: TreeObject)
      requires afterApplyListeners != [] && afterApplyListeners[0] == o
      requires o.current.dead
      modifies this
      ensures State() == old(State()).(afterApplyListeners := old(afterApplyListeners)[1..])
    {
      afterApplyListeners := afterApplyListeners[1..];
    }

    // -------------------------------------------------------------------

    /** Calls the listeners present now; those that join meanwhile wait behind them. */
    method EmitCommitSignal(scripts: seq<seq<Edit<TreeObject>>>)
      requires AllInScope(scripts) && Committing(State(), |commitListeners|)
      modifies this, objects
      ensures State() == EmitCommit(old(State()), |old(commitListeners)|, scripts)
    {
      hide Linked, EmitCommit, CommitListener;
      var remaining: nat, rest := |commitListeners|, scripts;
      while remaining > 0
        invariant Committing(State(), remaining) && AllInScope(rest)
        invariant EmitCommit(State(), remaining, rest) == EmitCommit(old(State()), |old(commitListeners)|, scripts)
      {
        CommitListenerKeeps(State(), remaining, Head(rest));
        EmitCommitUnfolds(State(), remaining, rest);
        FirstIsObject(State(), remaining);
        HandleTransactionCommit(commitListeners[0], Head(rest));
        remaining, rest := remaining - 1, Tail(rest);
      }
      EmitCommitDone(State(), rest);
    }

    method EmitApplySignal(scripts: seq<seq<Edit<TreeObject>>>)
      requires AllInScope(scripts) && Applying(State())
      modifies this, objects
      ensures State() == EmitApply(old(State()), |old(applyListeners)|, scripts)
      ensures Applying(State()) && applyListeners == []
    {
      hide Applying, EmitApply, ApplyListener;
      var remaining: nat, rest := |applyListeners|, scripts;
      while remaining > 0
        invariant Applying(State()) && remaining == |applyListeners| && AllInScope(rest)
        invariant EmitApply(State(), remaining, rest) == EmitApply(old(State()), |old(applyListeners)|, scripts)
      {
        FirstApplies(State());
        ApplyListenerKeeps(State(), Head(rest));
        EmitApplyUnfolds(State(), remaining, rest);
        HandleTransactionApply(applyListeners[0], Head(rest));
        remaining, rest := remaining - 1, Tail(rest);
      }
      EmitApplyDone(State(), rest);
    }

    /** The root's listener comes first; behind it only objects shown dead remain. */
    method EmitAfterApplySignal(es: seq<Edit<TreeObject>>)
      requires InScope(es)
      requires forall o :: o in afterApplyListeners ==> o in objects && o.current.dead
      modifies this, objects
      ensures State() == ApplyEdits(old(State()), es).(afterApplyListeners := [])
    {
      hide ApplyEdits;
      EditsOnlyEdit(State(), es);
      PerformEdits(es);
      assert forall o :: o in objects ==> o.current == old(State()).objects[o].current;
      ReapObjects();
    }

    method ReapObjects()
      requires forall o :: o in afterApplyListeners ==> o in objects && o.current.dead
      modifies this
      ensures State() == old(State()).(afterApplyListeners := [])
    {
      while afterApplyListeners != []
        invariant State() == old(State()).(afterApplyListeners := afterApplyListeners)
        invariant forall o :: o in afterApplyListeners ==> o in objects && o.current.dead
        decreases |afterApplyListeners|
      {
        HandleTransactionAfterApply(afterApplyListeners[0]);
      }
    }

    method TransactionProgress(script: Script<TreeObject>)
      requires ScriptInScope(script) && phase == WaitingConfirm && Confirming(State())
      modifies this, objects
      ensures State() == Progress(old(State()), script)
    {
      hide Linked, Committing, Applying, Confirming, Inv, EmitApply, ApplyEdits;
      if numWaiting > 0 {
        return;
      }
      ApplyStarts(State());
      ghost var m1 := old(State()).(numConfigures := 0, phase := Apply);
      numConfigures := 0;
      phase := Apply;
      assert State() == m1;
      EmitApplySignal(script.duringApply);
      AppliedDead(State());
      ghost var m2 := EmitApply(m1, |m1.applyListeners|, script.duringApply);
      phase := AfterApply;
      assert State() == m2.(phase := AfterApply);
      EmitAfterApplySignal(script.afterApply);
      Finish();
    }

    method Finish()
      modifies this
      ensures State() == FinishTransaction(old(State()))
    {
      phase := Idle;
      if queued && !idle {
        idle := true;
      }
      assert Objects() == old(Objects());
    }

    // -------------------------------------------------------------------
    // The callbacks of the event loop
    // -------------------------------------------------------------------

    method HandleCommit(script: Script<TreeObject>)
      requires ScriptInScope(script) && Inv(State()) && idle
      modifies this, objects
      ensures State() == Step(old(State()), IdleFires(script)) && Inv(State())
    {
      hide Linked, Committing, Applying, Confirming, Inv;
      HandleCommitKeeps(State(), script);
      StartTransaction(script);
      ArmPartKeeps(State(), script);
      Arm(script);
      TransactionProgress(script);
    }

    /** handle_commit up to the end of the commit signal. */
    method StartTransaction(script: Script<TreeObject>)
      requires ScriptInScope(script) && Inv(State()) && idle
      modifies this, objects
      ensures State() == CommitPart(old(State()), script) && Committing(State(), 0)
    {
      hide Linked, Committing, Applying, Confirming, Inv, EmitCommit, ApplyEdits;
      CommitPartKeeps(State(), script);
      CommitStarts(State(), script);
      EnterBeforeCommit();
      PerformEdits(script.beforeCommit);
      EnterCommit();
      EmitCommitSignal(script.duringCommit);
    }

    method EnterBeforeCommit()
      modifies this
      ensures State() == old(State()).(idle := false, phase := BeforeCommit, transaction := old(transaction) + 1)
    {
      idle := false;
      phase := BeforeCommit;
      transaction := transaction + 1;
      assert Objects() == old(Objects());
    }

    method EnterCommit()
      modifies this
      ensures State() == old(State()).(queued := false, phase := Commit)
    {
      queued := false;
      phase := Commit;
      assert Objects() == old(Objects());
    }

    /** handle_commit from there to transaction_progress. */
    method Arm(script: Script<TreeObject>)
      modifies this
      ensures State() == ArmPart(old(State()), script)
    {
      phase := WaitingConfirm;
      numConfigures := numWaiting;
      if noatomic {
        numWaiting := 0;
      } else if txnWait {
        numWaiting := numWaiting + TXN_WAIT_INFLATION;
      }
      timer := false;
      if numWaiting > 0 {
        if script.timerCreated {
          timer := true;
        } else {
          numWaiting := 0;
        }
      }
      assert Objects() == old(Objects());
    }

    method HandleTimeout(script: Script<TreeObject>)
      requires ScriptInScope(script) && Inv(State()) && timer
      modifies this, objects
      ensures State() == Step(old(State()), TimerFires(script)) && Inv(State()) && phase == Idle
    {
      hide Linked, Committing, Applying, Confirming, Inv;
      HandleTimeoutKeeps(State(), script);
      TimedOutConfirms(State());
      timer := false;
      numWaiting := 0;
      assert State() == old(State()).(timer := false, numWaiting := 0);
      TransactionProgress(script);
    }

    method ReleaseCommitLock(script: Script<TreeObject>)
      requires ScriptInScope(script) && phase == WaitingConfirm && numWaiting > 0
      requires Confirming(State().(numWaiting := numWaiting - 1, timer := timer && numWaiting > 1))
      modifies this, objects
      ensures State() == ReleaseLock(old(State()), script)
    {
      hide Linked, Committing, Applying, Confirming, Inv;
      numWaiting := numWaiting - 1;
      if numWaiting == 0 {
        timer := false;
      }
      assert State() == old(State().(numWaiting := numWaiting - 1, timer := timer && numWaiting > 1));
      TransactionProgress(script);
    }

    /** A client's surface commit, down to view_notify_ready_by_serial and window_end_configure. */
    method HandleSurfaceCommit(o: TreeObject, serial: nat, script: Script<TreeObject>) returns (success: bool)
      requires o in objects && ScriptInScope(script) && Inv(State())
      modifies this, objects
      ensures State() == Step(old(State()), Acknowledged(o, serial, script)) && Inv(State())
      ensures success == Releases(old(State()), o, serial)
    {
      hide Linked, Committing, Applying, Confirming, Inv;
      hide Progress;
      SurfaceCommitKeeps(State(), o, serial, script);
      if !o.isConfiguring || o.configureSerial == 0 || serial != o.configureSerial {
        return false;
      }
      ReleasedConfirms(State(), o, serial);
      EndConfigure(o);
      ReleaseCommitLock(script);
      return true;
    }

    method EndConfigure(o: TreeObject)
      requires o in objects
      modifies o`isConfiguring
      ensures var m := old(State());
              State() == m.(objects := m.objects[o := m.objects[o].(isConfiguring := false)])
    {
      o.isConfiguring := false;
      assert Objects() == old(Objects())[o := o.Value()];
    }
  }
}
