/**
 * Which clients a transaction asks and waits for, and that what was written and
 * marked dirty is shown.
 */
module TransactionConfigures {
  import opened Seqs
  import opened Transaction
  import opened TransactionSafety
  import opened TransactionTheorems

  // ---------------------------------------------------------------------
  // What a view asks for
  // ---------------------------------------------------------------------

  /** The content size is not the one last asked for; only a window's state has one. */
  ghost predicate SizeDiffers<O>(b: Object<O>) {
    match b.pending
    case WindowState(_, _, _, _, _, _, width, height, _) => width != b.configured.width || height != b.configured.height
    case _ => 0.0 != b.configured.width || 0.0 != b.configured.height
  }

  /** The window can be seen, and something it last asked for is different now, or it has to ask anyway. */
  ghost predicate MustAsk<O>(b: Object<O>) {
    && b.isWindow && b.live.visible
    && (|| b.forceReconfigure
        || b.live.resizing != b.configured.resizing
        || b.live.tiled != b.configured.tiled
        || b.live.fullscreen != b.configured.fullscreen
        || SizeDiffers(b))
  }

  /** This is what the window asks for, setting by setting. */
  ghost predicate IsAsked<O>(b: Object<O>, asked: ViewConfig) {
    && asked.resizing == b.live.resizing && asked.tiled == b.live.tiled && asked.fullscreen == b.live.fullscreen
    && (b.pending.WindowState? ==> asked.width == b.pending.contentWidth && asked.height == b.pending.contentHeight)
  }

  /** What was sent is not forgotten, and the transaction is the same. */
  ghost predicate SentStays<O>(m: Manager<O>, m': Manager<O>) {
    && m'.transaction == m.transaction && m.lastSerial <= m'.lastSerial
    && forall serial :: serial in m.sent ==> serial in m'.sent && m'.sent[serial] == m.sent[serial]
  }

  /** The part of an object that only its view and the lock write. */
  ghost predicate SameView<O>(b: Object<O>, b': Object<O>) {
    b'.isConfiguring == b.isConfiguring && b'.configured == b.configured && b'.configureSerial == b.configureSerial
  }

  /**
   * The window o, as it was at this moment, asked its client if it had to, with
   * a fresh serial, and waits for the answer; otherwise it does not wait.
   */
  ghost predicate AskedSince<O>(at: Manager<O>, after: Manager<O>, o: O)
    requires o in at.objects && o in after.objects
  {
    var b, b' := at.objects[o], after.objects[o];
    && (b'.isConfiguring <==> MustAsk(b))
    && (if MustAsk(b) then
          && IsAsked(b, b'.configured)
          && at.lastSerial < b'.configureSerial && b'.configureSerial !in at.sent
          && b'.configureSerial in after.sent && after.sent[b'.configureSerial] == Sent(o, at.transaction)
        else SameView(b, b'))
  }

  lemma WantedDiffers<O>(b: Object<O>)
    requires b.isWindow
    ensures MustAsk(b) <==> b.live.visible && (b.forceReconfigure || Wanted(b) != b.configured)
    ensures IsAsked(b, Wanted(b))
  {
  }

  lemma ConfigureAsks<O>(m: Manager<O>, o: O)
    requires SerialsUsed(m) && o in m.objects && !m.objects[o].isConfiguring && MustAsk(m.objects[o])
    requires IsAsked(m.objects[o], Wanted(m.objects[o]))
    ensures var u := BeginConfigure(SendConfigure(m, o), o); o in u.objects && AskedSince(m, u, o)
  {
    hide Wanted, MustAsk, IsAsked;
    assert m.lastSerial + 1 !in m.sent;
  }

  lemma ViewCommitAsks<O>(m: Manager<O>, o: O)
    requires SerialsUsed(m) && o in m.objects && m.objects[o].isWindow && !m.objects[o].isConfiguring
    ensures o in ViewCommit(m, o).objects && AskedSince(m, ViewCommit(m, o), o)
  {
    hide Wanted, MustAsk, IsAsked, BeginConfigure, SendConfigure;
    WantedDiffers(m.objects[o]);
    if MustAsk(m.objects[o]) {
      ConfigureAsks(m, o);
    }
  }

  // ---------------------------------------------------------------------
  // The commit signal asks each window once
  // ---------------------------------------------------------------------

  /** What one listener leaves alone: the view of any other object, and what was sent. */
  ghost predicate OnlyAsks<O>(m: Manager<O>, m': Manager<O>, front: O) {
    && m'.objects.Keys == m.objects.Keys && SentStays(m, m')
    && forall o :: o in m.objects && o != front ==> SameView(m.objects[o], m'.objects[o])
  }

  lemma EditsKeepViews<O>(m: Manager<O>, es: seq<Edit<O>>)
    ensures var m' := ApplyEdits(m, es);
            && m'.objects.Keys == m.objects.Keys && SentStays(m, m')
            && forall o :: o in m.objects ==> SameView(m.objects[o], m'.objects[o])
  {
    EditsOnlyEdit(m, es);
  }

  lemma SendOnlyAsks<O>(m: Manager<O>, front: O)
    requires SerialsUsed(m) && front in m.objects
    ensures OnlyAsks(m, SendConfigure(m, front), front)
  {
    hide Wanted;
    assert m.lastSerial + 1 !in m.sent;
  }

  lemma BeginOnlyAsks<O>(m: Manager<O>, front: O)
    requires front in m.objects
    ensures OnlyAsks(m, BeginConfigure(m, front), front)
  {
  }

  lemma OnlyAsksThen<O>(m: Manager<O>, m': Manager<O>, m'': Manager<O>, front: O)
    requires OnlyAsks(m, m', front) && OnlyAsks(m', m'', front)
    ensures OnlyAsks(m, m'', front)
  {
  }

  lemma ViewCommitOnlyAsks<O>(m: Manager<O>, front: O)
    requires SerialsUsed(m) && front in m.objects
    ensures OnlyAsks(m, ViewCommit(m, front), front)
  {
    SendOnlyAsks(m, front);
    BeginOnlyAsks(SendConfigure(m, front), front);
    OnlyAsksThen(m, SendConfigure(m, front), BeginConfigure(SendConfigure(m, front), front), front);
    hide Wanted, SendConfigure, BeginConfigure;
  }

  lemma AskedThen<O>(at: Manager<O>, m: Manager<O>, after: Manager<O>, o: O)
    requires o in at.objects && o in m.objects && o in after.objects
    requires AskedSince(at, m, o) && SentStays(m, after) && SameView(m.objects[o], after.objects[o])
    ensures AskedSince(at, after, o)
  {
    hide MustAsk, IsAsked;
  }

  /** A window's own commit signal asks its client and no other. */
  lemma NotifyCommitAsks<O>(m: Manager<O>, o: O, es: seq<Edit<O>>)
    requires SerialsUsed(m) && o in m.objects && !m.objects[o].isConfiguring
    ensures var m' := NotifyCommit(m, o, es); OnlyAsks(m, m', o) && AskedSince(m, m', o)
  {
    hide Wanted, ViewCommit, ApplyEdits, IsAsked, SizeDiffers;
    if m.objects[o].isWindow {
      var asked := ViewCommit(m, o);
      ViewCommitAsks(m, o);
      ViewCommitOnlyAsks(m, o);
      EditsKeepViews(asked, es);
      hide AskedSince;
      AskedThen(m, asked, ApplyEdits(asked, es), o);
    }
  }

  /** The listener of the object in front asks its window, and no other. */
  lemma CommitListenerAsks<O>(m: Manager<O>, es: seq<Edit<O>>)
    requires m.commitListeners != [] && m.commitListeners[0] in m.objects && SerialsUsed(m)
    requires !m.objects[m.commitListeners[0]].isConfiguring
    ensures var m', front := CommitListener(m, es), m.commitListeners[0];
            OnlyAsks(m, m', front) && AskedSince(m, m', front)
  {
    var front := m.commitListeners[0];
    hide IsAsked, NotifyCommit, SizeDiffers;
    NotifyCommitAsks(Enlist(m, front), front, es);
  }

  /** A window whose listener is not called is not asked. */
  lemma {:induction false} EmitCommitAsksNot<O>(m: Manager<O>, n: nat, scripts: seq<seq<Edit<O>>>, o: O)
    requires Committing(m, n) && o in m.objects && o !in m.commitListeners[..n]
    ensures var m' := EmitCommit(m, n, scripts);
            o in m'.objects && SameView(m.objects[o], m'.objects[o]) && SentStays(m, m')
    decreases n
  {
    hide CommitListener, Committing, NoDuplicates, EmitCommit, SameView;
    if n == 0 {
      EmitCommitDone(m, scripts);
      StaysItself(m, o);
    } else {
      StillCommitting(m, n);
      FrontIsFree(m, n);
      var m1 := CommitListener(m, Head(scripts));
      CommitListenerKeeps(m, n, Head(scripts));
      CommitListenerCopies(m, Head(scripts));
      CommitListenerAsks(m, Head(scripts));
      FrontMembers(m.commitListeners, m1.commitListeners, n, o);
      EmitCommitUnfolds(m, n, scripts);
      EmitCommitAsksNot(m1, n - 1, Tail(scripts), o);
      SameViewThen(m.objects[o], m1.objects[o], EmitCommit(m, n, scripts).objects[o]);
    }
  }

  lemma StaysItself<O>(m: Manager<O>, o: O)
    requires o in m.objects
    ensures SameView(m.objects[o], m.objects[o]) && SentStays(m, m)
  {
  }

  lemma SameViewThen<O>(b: Object<O>, b': Object<O>, b'': Object<O>)
    requires SameView(b, b') && SameView(b', b'')
    ensures SameView(b, b'')
  {
  }

  /** The object in front is not being configured yet. */
  lemma FrontIsFree<O>(m: Manager<O>, n: nat)
    requires Committing(m, n) && n > 0
    ensures m.commitListeners[0] in m.objects && !m.objects[m.commitListeners[0]].isConfiguring && SerialsUsed(m)
  {
    assert m.commitListeners[0] in m.commitListeners;
  }

  /** The window of the k-th listener is asked as it is when that listener starts, and not again. */
  lemma {:induction false} EmitCommitAsks<O>(m: Manager<O>, n: nat, scripts: seq<seq<Edit<O>>>, k: nat)
    requires Committing(m, n) && k < n && n <= |m.commitListeners| && m.commitListeners[k] in m.objects
    ensures var o, at, m' := m.commitListeners[k], EmitCommit(m, k, scripts), EmitCommit(m, n, scripts);
            && o in at.objects && o in m'.objects && AskedSince(at, m', o) && at.transaction == m.transaction
    decreases n
  {
    hide CommitListener, Committing, NoDuplicates, EmitCommit, AskedSince, SameView;
    StillCommitting(m, n);
    FrontIsFree(m, n);
    var m1, o := CommitListener(m, Head(scripts)), m.commitListeners[k];
    CommitListenerKeeps(m, n, Head(scripts));
    CommitListenerCopies(m, Head(scripts));
    CommitListenerAsks(m, Head(scripts));
    EmitCommitUnfolds(m, n, scripts);
    if k == 0 {
      FrontMembers(m.commitListeners, m1.commitListeners, n, o);
      EmitCommitDone(m, scripts);
      EmitCommitAsksNot(m1, n - 1, Tail(scripts), o);
      AskedThen(m, m1, EmitCommit(m, n, scripts), o);
    } else {
      StaysInLine(m, m1, n, k);
      EmitCommitTakes(m, k, scripts);
      EmitCommitAsks(m1, n - 1, Tail(scripts), k - 1);
    }
  }

  // ---------------------------------------------------------------------
  // A commit waits for exactly the windows that had to ask
  // ---------------------------------------------------------------------

  /** The manager when the listener of o starts. */
  function WhenCalled<O>(m: Manager<O>, script: Script<O>, o: O): Manager<O>
    requires o in CommitBegins(m, script).commitListeners
  {
    var before := CommitBegins(m, script);
    EmitCommit(before, IndexOf(before.commitListeners, o), script.duringCommit)
  }

  /** The object is dirty when the commit signal starts, and a window that must ask when its own listener starts. */
  ghost predicate AsksInCommit<O>(m: Manager<O>, script: Script<O>, o: O) {
    && o in CommitBegins(m, script).commitListeners
    && o in WhenCalled(m, script, o).objects && MustAsk(WhenCalled(m, script, o).objects[o])
  }

  lemma NoneConfigures<O>(m: Manager<O>, script: Script<O>, o: O)
    requires Inv(m) && m.idle && o in m.objects
    ensures var before := CommitBegins(m, script);
            o in before.objects && !before.objects[o].isConfiguring && before.transaction == m.transaction + 1
  {
    EditsOnlyEdit(m.(idle := false, phase := BeforeCommit, transaction := m.transaction + 1), script.beforeCommit);
    hide ApplyEdits;
  }

  /**
   * A commit leaves a window waiting for its client if and only if the window
   * had to ask when its own listener started: it could be seen, and was told to
   * ask again or looks different in any of the things it asks for. Those are
   * then what the client was asked for last, by a configure that is new, to this
   * window, and of this transaction.
   */
  lemma ChangedWindowsAreWaitedFor<O>(m: Manager<O>, script: Script<O>, o: O)
    requires Inv(m) && m.idle && o in m.objects
    ensures var after := CommitPart(m, script);
            && o in after.objects
            && (o in Configuring(after) <==> AsksInCommit(m, script, o))
            && (AsksInCommit(m, script, o) ==>
                  var at, b' := WhenCalled(m, script, o), after.objects[o];
                  && IsAsked(at.objects[o], b'.configured)
                  && at.lastSerial < b'.configureSerial && b'.configureSerial !in at.sent
                  && b'.configureSerial in after.sent && after.sent[b'.configureSerial] == Sent(o, m.transaction + 1))
  {
    hide Inv, Committing, EmitCommit, ApplyEdits, NoDuplicates, MustAsk, IsAsked, SizeDiffers;
    BeginsEdited(m, script, o);
    NoneConfigures(m, script, o);
    var before := CommitBegins(m, script);
    var n := |before.commitListeners|;
    assert before.commitListeners[..n] == before.commitListeners;
    assert CommitPart(m, script) == EmitCommit(before, n, script.duringCommit);
    hide CommitPart, CommitBegins;
    if o in before.commitListeners {
      EmitCommitAsks(before, n, script.duringCommit, IndexOf(before.commitListeners, o));
    } else {
      EmitCommitAsksNot(before, n, script.duringCommit, o);
    }
  }

  lemma ArmedConfiguring<O>(m: Manager<O>, script: Script<O>)
    ensures Configuring(ArmPart(m, script)) == Configuring(m)
  {
  }

  /** Whether there is anything to wait for when a commit is armed. */
  lemma ArmedWaits<O>(m: Manager<O>, script: Script<O>)
    requires Committing(m, 0)
    ensures ArmPart(m, script).numWaiting > 0 <==>
              !m.noatomic && script.timerCreated && (m.txnWait || Configuring(m) != {})
  {
  }

  lemma CommitKeepsOptions<O>(m: Manager<O>, script: Script<O>)
    requires Inv(m) && m.idle
    ensures CommitPart(m, script).noatomic == m.noatomic && CommitPart(m, script).txnWait == m.txnWait
    ensures CommitPart(m, script).objects.Keys == m.objects.Keys
  {
    CommitPartKeepsCurrent(m, script);
    var m0 := m.(idle := false, phase := BeforeCommit, transaction := m.transaction + 1);
    EditsOnlyEdit(m0, script.beforeCommit);
    var before := CommitBegins(m, script);
    hide ApplyEdits, Inv;
    EmitKeepsOptions(before, |before.commitListeners|, script.duringCommit);
  }

  lemma {:induction false} EmitKeepsOptions<O>(m: Manager<O>, n: nat, scripts: seq<seq<Edit<O>>>)
    ensures EmitCommit(m, n, scripts).noatomic == m.noatomic && EmitCommit(m, n, scripts).txnWait == m.txnWait
    decreases n
  {
    if n > 0 && m.commitListeners != [] && m.commitListeners[0] in m.objects {
      ListenerKeepsOptions(m, Head(scripts));
      hide CommitListener;
      EmitKeepsOptions(CommitListener(m, Head(scripts)), n - 1, Tail(scripts));
    }
  }

  lemma ListenerKeepsOptions<O>(m: Manager<O>, es: seq<Edit<O>>)
    requires m.commitListeners != [] && m.commitListeners[0] in m.objects
    ensures CommitListener(m, es).noatomic == m.noatomic && CommitListener(m, es).txnWait == m.txnWait
  {
    hide ApplyEdits, ViewCommit;
    var front := m.commitListeners[0];
    var listed := Enlist(m, front);
    ViewKeepsOptions(listed, front);
    EditsKeepOptions(ViewCommit(listed, front), es);
  }

  lemma ViewKeepsOptions<O>(m: Manager<O>, o: O)
    requires o in m.objects
    ensures ViewCommit(m, o).noatomic == m.noatomic && ViewCommit(m, o).txnWait == m.txnWait
  {
    hide Wanted;
  }

  lemma EditsKeepOptions<O>(m: Manager<O>, es: seq<Edit<O>>)
    ensures ApplyEdits(m, es).noatomic == m.noatomic && ApplyEdits(m, es).txnWait == m.txnWait
  {
    EditsOnlyEdit(m, es);
    hide ApplyEdits;
  }

  /**
   * A commit ends up waiting if and only if some window had to ask, the
   * transaction is atomic and its timer could be made; txn_wait makes it wait in
   * any case. It then waits for those windows and no others.
   */
  lemma CommitWaitsForAsked<O>(m: Manager<O>, script: Script<O>)
    requires Inv(m) && m.idle
    ensures var u := Step(m, IdleFires(script));
            && (u.phase.WaitingConfirm? <==>
                  && !m.noatomic && script.timerCreated
                  && (m.txnWait || exists o :: o in m.objects && AsksInCommit(m, script, o)))
            && (u.phase.WaitingConfirm? ==> forall o :: o in Configuring(u) <==> o in m.objects && AsksInCommit(m, script, o))
  {
    var after := CommitPart(m, script);
    var armed := ArmPart(after, script);
    CommitPartKeeps(m, script);
    CommitKeepsOptions(m, script);
    ArmPartKeeps(after, script);
    ArmedConfiguring(after, script);
    ArmedWaits(after, script);
    ProgressKeeps(armed, script);
    ProgressEnds(armed, script);
    AskedAre(m, script);
    StepKeeps(m, IdleFires(script));
    BetweenCallbacks(Step(m, IdleFires(script)));
    hide CommitPart, ArmPart, Progress, Inv, AsksInCommit, Committing, Confirming;
    assert forall o :: o in Configuring(after) ==> o in m.objects;
  }

  lemma BetweenCallbacks<O>(m: Manager<O>)
    requires Inv(m)
    ensures m.phase.Idle? || m.phase.WaitingConfirm?
  {
  }

  lemma AskedAre<O>(m: Manager<O>, script: Script<O>)
    requires Inv(m) && m.idle
    ensures forall o :: o in m.objects ==> (o in Configuring(CommitPart(m, script)) <==> AsksInCommit(m, script, o))
  {
    hide CommitPart, Inv, AsksInCommit;
    forall o | o in m.objects
      ensures o in Configuring(CommitPart(m, script)) <==> AsksInCommit(m, script, o)
    {
      ChangedWindowsAreWaitedFor(m, script, o);
    }
  }

  // ---------------------------------------------------------------------
  // What is written is shown
  // ---------------------------------------------------------------------

  lemma QueuedIsOnItsWay<O>(m: Manager<O>, o: O)
    requires Inv(m) && o in m.objects && m.objects[o].dirty
    ensures m.queued && (m.phase.Idle? ==> m.idle)
  {
    assert o in m.commitListeners;
  }

  /** Marking an object dirty makes sure that a commit is on its way, and writes nothing else. */
  lemma MarkedIsQueued<O>(m: Manager<O>, o: O)
    requires Inv(m) && o in m.objects
    ensures var u := Step(m, Changed(Edit(o, SetDirty)));
            && Inv(u) && u.phase == m.phase && u.queued && (u.phase.Idle? ==> u.idle)
            && u.objects == m.objects[o := m.objects[o].(dirty := true)]
  {
    StepKeeps(m, Changed(Edit(o, SetDirty)));
    if m.objects[o].dirty {
      QueuedIsOnItsWay(m, o);
      hide Inv;
      assert m.objects[o := m.objects[o].(dirty := true)] == m.objects;
    } else {
      hide Inv;
    }
  }

  lemma WrittenIsPending<O>(m: Manager<O>, o: O, s: Snapshot<O>)
    requires Inv(m) && o in m.objects
    ensures var u := Step(m, Changed(Edit(o, SetPending(s))));
            Inv(u) && u.phase == m.phase && u.objects == m.objects[o := m.objects[o].(pending := s)]
  {
    StepKeeps(m, Changed(Edit(o, SetPending(s))));
    hide Inv;
  }

  lemma BeginsWithPending<O>(m: Manager<O>, script: Script<O>, o: O)
    requires o in m.objects && Untouched(script.beforeCommit, o)
    ensures o in CommitBegins(m, script).objects
    ensures CommitBegins(m, script).objects[o].pending == m.objects[o].pending
  {
    hide ApplyEdits, Untouched;
    UntouchedKeepsPending(m.(idle := false, phase := BeforeCommit, transaction := m.transaction + 1), script.beforeCommit, o);
  }

  lemma CommitTakesPending<O>(m: Manager<O>, script: Script<O>, o: O)
    requires Inv(m) && m.idle && o in m.objects && m.objects[o].dirty
    requires Untouched(script.beforeCommit, o) && AllUntouched(script.duringCommit, o)
    ensures var u := Step(m, IdleFires(script)); o in u.objects && u.objects[o].committed == m.objects[o].pending
  {
    UntouchedIsSnapshotted(m, script, o);
    BeginsEdited(m, script, o);
    BeginsWithPending(m, script, o);
    hide CommitPart, Progress, Inv, Committing, Untouched, AllUntouched, CommitBegins;
    ProgressFreezes(ArmPart(CommitPart(m, script), script), script);
  }

  /** What is dirty when a commit is on its way is shown by it, at the latest when its timer fires. */
  lemma DirtyIsShown<O>(m: Manager<O>, o: O, commit: Script<O>, end: Script<O>)
    requires Inv(m) && m.idle && o in m.objects && m.objects[o].dirty
    requires Untouched(commit.beforeCommit, o) && AllUntouched(commit.duringCommit, o)
    ensures var shown := Step(Step(m, IdleFires(commit)), TimerFires(end));
            shown.phase.Idle? && o in shown.objects && shown.objects[o].current == m.objects[o].pending
  {
    CommitTakesPending(m, commit, o);
    StepKeeps(m, IdleFires(commit));
    var u := Step(m, IdleFires(commit));
    BetweenCallbacks(u);
    hide HandleCommit;
    if u.phase.WaitingConfirm? {
      hide Inv;
      TimeoutEndsTransaction(u, end);
    } else {
      IdleShowsCommitted(u);
      assert !u.timer;
    }
  }

  /**
   * No update is lost: what is written to an idle tree and marked dirty is what
   * the transaction that follows shows, at the latest when its timer fires.
   */
  lemma UpdateIsShown<O>(m: Manager<O>, o: O, s: Snapshot<O>, commit: Script<O>, end: Script<O>)
    requires Inv(m) && m.phase.Idle? && o in m.objects
    requires Untouched(commit.beforeCommit, o) && AllUntouched(commit.duringCommit, o)
    ensures var marked := Step(Step(m, Changed(Edit(o, SetPending(s)))), Changed(Edit(o, SetDirty)));
            var shown := Step(Step(marked, IdleFires(commit)), TimerFires(end));
            shown.phase.Idle? && o in shown.objects && shown.objects[o].current == s
  {
    hide Inv, Step, Untouched, AllUntouched;
    WrittenIsPending(m, o, s);
    MarkedIsQueued(Step(m, Changed(Edit(o, SetPending(s)))), o);
    DirtyIsShown(Step(Step(m, Changed(Edit(o, SetPending(s)))), Changed(Edit(o, SetDirty))), o, commit, end);
  }

  // ---------------------------------------------------------------------
  // The dead are told apart
  // ---------------------------------------------------------------------

  /** The after-apply signal goes to exactly the objects that were applied as dead. */
  lemma {:induction false} TheDeadAreReaped<O>(m: Manager<O>, n: nat, scripts: seq<seq<Edit<O>>>, o: O)
    requires Applying(m) && n == |m.applyListeners|
    ensures o in EmitApply(m, n, scripts).afterApplyListeners <==>
              o in m.afterApplyListeners || (o in m.applyListeners && o in m.objects && m.objects[o].committed.dead)
    decreases n
  {
    hide Applying, EmitApply;
    if n == 0 {
      EmitApplyDone(m, scripts);
    } else {
      FirstApplies(m);
      EmitApplyUnfolds(m, n, scripts);
      var m1, front := ApplyListener(m, Head(scripts)), m.applyListeners[0];
      ApplyListenerKeeps(m, Head(scripts));
      EditsOnlyEdit(ApplyListener(m, []), Head(scripts));
      TheDeadAreReaped(m1, n - 1, Tail(scripts), o);
      assert m.applyListeners == [front] + m.applyListeners[1..];
      hide ApplyEdits;
    }
  }
}
