/**
 * What the transaction protocol is for: snapshots that are taken and shown as a
 * whole, locks that only the right acknowledgement opens, and no lost update.
 */
module TransactionTheorems {
  import opened Seqs
  import opened Transaction
  import opened TransactionSafety

  // ---------------------------------------------------------------------
  // Reachable states
  // ---------------------------------------------------------------------

  /** The states between two callbacks, spelled out. */
  lemma ReachableStates<O>(m: Manager<O>, es: seq<Event<O>>)
    requires Init(m)
    ensures var r := Run(m, es);
            && (r.idle ==> r.phase.Idle?)
            && (r.phase.Idle? ==> r.numWaiting == 0 && Configuring(r) == {} && !r.timer)
            && (r.phase.WaitingConfirm? ==> r.timer && r.numWaiting > 0)
            && (r.phase.WaitingConfirm? ==>
                  r.numWaiting == |Configuring(r)| + if r.txnWait then TXN_WAIT_INFLATION else 0)
            && (r.phase.Idle? || r.phase.WaitingConfirm?)
            && (forall o :: o in r.objects && r.objects[o].dirty ==> r.queued)
            && (r.queued && r.phase.Idle? ==> r.idle)
            && (r.phase.Idle? ==> forall o :: o in r.objects ==> r.objects[o].current == r.objects[o].committed)
  {
    RunKeeps(m, es);
    var r := Run(m, es);
    if r.phase.Idle? {
      assert forall o :: o in Configuring(r) ==> o in r.applyListeners;
    }
  }

  // ---------------------------------------------------------------------
  // Committed state is frozen, current state changes as a whole
  // ---------------------------------------------------------------------

  ghost predicate SameCommitted<O>(m: Manager<O>, m': Manager<O>) {
    m'.objects.Keys == m.objects.Keys &&
    forall o :: o in m.objects ==> m'.objects[o].committed == m.objects[o].committed
  }

  ghost predicate SameCurrent<O>(m: Manager<O>, m': Manager<O>) {
    m'.objects.Keys == m.objects.Keys &&
    forall o :: o in m.objects ==> m'.objects[o].current == m.objects[o].current
  }

  lemma {:induction false} EmitApplyFreezes<O>(m: Manager<O>, n: nat, scripts: seq<seq<Edit<O>>>)
    ensures SameCommitted(m, EmitApply(m, n, scripts))
    decreases n
  {
    if n > 0 && m.applyListeners != [] && m.applyListeners[0] in m.objects {
      EditsOnlyEdit(ApplyListener(m, []), Head(scripts));
      EmitApplyFreezes(ApplyListener(m, Head(scripts)), n - 1, Tail(scripts));
    }
  }

  lemma ProgressFreezes<O>(m: Manager<O>, script: Script<O>)
    ensures SameCommitted(m, Progress(m, script))
  {
    if m.numWaiting == 0 {
      var m1 := m.(numConfigures := 0, phase := Apply);
      EmitApplyFreezes(m1, |m1.applyListeners|, script.duringApply);
      EditsOnlyEdit(EmitApply(m1, |m1.applyListeners|, script.duringApply).(phase := AfterApply), script.afterApply);
    }
  }

  /** What a configure leaves alone: all but what the view keeps and the lock count. */
  ghost predicate OnlyConfigured<O>(m: Manager<O>, m': Manager<O>) {
    && m'.objects.Keys == m.objects.Keys
    && m'.commitListeners == m.commitListeners && m'.applyListeners == m.applyListeners
    && forall o :: o in m.objects ==> ObjectOnlyConfigured(m.objects[o], m'.objects[o])
  }

  ghost predicate ObjectOnlyConfigured<O>(b: Object<O>, b': Object<O>) {
    && b'.isWindow == b.isWindow && b'.dirty == b.dirty && b'.live == b.live
    && b'.pending == b.pending && b'.committed == b.committed && b'.current == b.current
  }

  lemma SendConfigureOnlyConfigures<O>(m: Manager<O>, o: O)
    requires o in m.objects
    ensures OnlyConfigured(m, SendConfigure(m, o))
  {
  }

  lemma BeginConfigureOnlyConfigures<O>(m: Manager<O>, o: O)
    requires o in m.objects
    ensures OnlyConfigured(m, BeginConfigure(m, o))
  {
  }

  lemma ViewCommitOnlyConfigures<O>(m: Manager<O>, o: O)
    requires o in m.objects
    ensures OnlyConfigured(m, ViewCommit(m, o))
  {
    SendConfigureOnlyConfigures(m, o);
    BeginConfigureOnlyConfigures(SendConfigure(m, o), o);
  }

  lemma NotifyCommitFrame<O>(m: Manager<O>, o: O, es: seq<Edit<O>>)
    requires o in m.objects
    ensures var m' := NotifyCommit(m, o, es);
            && SameCommitted(m, m') && SameCurrent(m, m')
            && m'.applyListeners == m.applyListeners && m.commitListeners <= m'.commitListeners
  {
    if m.objects[o].isWindow {
      ViewCommitOnlyConfigures(m, o);
      EditsOnlyEdit(ViewCommit(m, o), es);
    }
  }

  lemma CommitListenerKeepsCurrent<O>(m: Manager<O>, es: seq<Edit<O>>)
    requires m.commitListeners != [] && m.commitListeners[0] in m.objects
    ensures SameCurrent(m, CommitListener(m, es))
  {
    var o := m.commitListeners[0];
    NotifyCommitFrame(Enlist(m, o), o, es);
  }

  lemma {:induction false} EmitCommitKeepsCurrent<O>(m: Manager<O>, n: nat, scripts: seq<seq<Edit<O>>>)
    ensures SameCurrent(m, EmitCommit(m, n, scripts))
    decreases n
  {
    if n > 0 && m.commitListeners != [] && m.commitListeners[0] in m.objects {
      CommitListenerKeepsCurrent(m, Head(scripts));
      EmitCommitKeepsCurrent(CommitListener(m, Head(scripts)), n - 1, Tail(scripts));
    }
  }

  lemma CommitPartKeepsCurrent<O>(m: Manager<O>, script: Script<O>)
    ensures SameCurrent(m, CommitPart(m, script))
  {
    var m0 := m.(idle := false, phase := BeforeCommit, transaction := m.transaction + 1);
    EditsOnlyEdit(m0, script.beforeCommit);
    var m2 := ApplyEdits(m0, script.beforeCommit).(queued := false, phase := Commit);
    EmitCommitKeepsCurrent(m2, |m2.commitListeners|, script.duringCommit);
  }

  /** Only the start of a transaction writes committed state. */
  lemma CommittedIsFrozen<O>(m: Manager<O>, e: Event<O>)
    requires Inv(m)
    requires !(e.IdleFires? && m.idle)
    ensures SameCommitted(m, Step(m, e))
  {
    match e
    case Changed(edit) => EditFreezes(m, edit);
    case Acknowledged(o, serial, script) => AcknowledgementFreezes(m, o, serial, script);
    case TimerFires(script) => TimeoutFreezes(m, script);
    case _ => hide Inv;
  }

  lemma EditFreezes<O>(m: Manager<O>, edit: Edit<O>)
    ensures SameCommitted(m, Step(m, Changed(edit))) && SameCurrent(m, Step(m, Changed(edit)))
  {
    EditOnlyEdits(m, edit);
    hide ApplyEdit;
  }

  lemma AcknowledgementFreezes<O>(m: Manager<O>, o: O, serial: nat, script: Script<O>)
    ensures SameCommitted(m, SurfaceCommit(m, o, serial, script))
  {
    hide Progress;
    if Releases(m, o, serial) && m.numWaiting > 0 {
      var m1 := m.(objects := m.objects[o := m.objects[o].(isConfiguring := false)]);
      ProgressFreezes(m1.(numWaiting := m.numWaiting - 1, timer := m.timer && m.numWaiting > 1), script);
    }
  }

  lemma TimeoutFreezes<O>(m: Manager<O>, script: Script<O>)
    ensures SameCommitted(m, Step(m, TimerFires(script)))
  {
    hide Progress;
    ProgressFreezes(m.(timer := false, numWaiting := 0), script);
  }

  /** While a transaction waits, what is shown stays; when it is over, all that was committed is shown. */
  lemma CurrentChangesAsAWhole<O>(m: Manager<O>, e: Event<O>)
    requires Inv(m)
    ensures var m' := Step(m, e);
            && m'.objects.Keys == m.objects.Keys
            && (m'.phase.WaitingConfirm? ==> SameCurrent(m, m'))
            && (m'.phase.Idle? ==> forall o :: o in m.objects ==> m'.objects[o].current == m'.objects[o].committed)
  {
    StepKeeps(m, e);
    IdleShowsCommitted(Step(m, e));
    hide Inv;
    match e
    case Changed(edit) => EditFreezes(m, edit);
    case IdleFires(script) => CommitKeepsCurrent(m, script);
    case Acknowledged(o, serial, script) => AcknowledgementKeepsCurrent(m, o, serial, script);
    case TimerFires(script) => TimeoutKeepsCurrent(m, script);
    case SerialTaken =>
  }

  lemma IdleShowsCommitted<O>(m: Manager<O>)
    requires Inv(m)
    ensures m.phase.Idle? ==> forall o :: o in m.objects ==> m.objects[o].current == m.objects[o].committed
  {
  }

  /** A transaction that does not progress waits on; one that does is over. */
  lemma ProgressEnds<O>(m: Manager<O>, script: Script<O>)
    ensures Progress(m, script).phase.WaitingConfirm? ==> Progress(m, script) == m
    ensures Progress(m, script).objects.Keys == m.objects.Keys
  {
    ProgressFreezes(m, script);
    hide EmitApply, ApplyEdits;
  }

  lemma CommitKeepsCurrent<O>(m: Manager<O>, script: Script<O>)
    ensures var m' := Step(m, IdleFires(script));
            && m'.objects.Keys == m.objects.Keys && (m'.phase.WaitingConfirm? ==> SameCurrent(m, m'))
  {
    hide Progress, CommitPart;
    CommitPartKeepsCurrent(m, script);
    ProgressEnds(ArmPart(CommitPart(m, script), script), script);
  }

  lemma AcknowledgementKeepsCurrent<O>(m: Manager<O>, o: O, serial: nat, script: Script<O>)
    ensures var m' := SurfaceCommit(m, o, serial, script);
            && m'.objects.Keys == m.objects.Keys && (m'.phase.WaitingConfirm? ==> SameCurrent(m, m'))
  {
    hide Progress;
    if Releases(m, o, serial) && m.numWaiting > 0 {
      var m1 := m.(objects := m.objects[o := m.objects[o].(isConfiguring := false)]);
      ProgressEnds(m1.(numWaiting := m.numWaiting - 1, timer := m.timer && m.numWaiting > 1), script);
    }
  }

  lemma TimeoutKeepsCurrent<O>(m: Manager<O>, script: Script<O>)
    ensures var m' := Step(m, TimerFires(script));
            && m'.objects.Keys == m.objects.Keys && (m'.phase.WaitingConfirm? ==> SameCurrent(m, m'))
  {
    hide Progress;
    ProgressEnds(m.(timer := false, numWaiting := 0), script);
  }

  /** The run stays in one transaction up to its last event. */
  ghost predicate WaitsThrough<O>(m: Manager<O>, es: seq<Event<O>>) {
    forall k :: 0 <= k < |es| ==> Run(m, es[..k]).phase.WaitingConfirm?
  }

  lemma {:induction false} WaitingFreezes<O>(m: Manager<O>, es: seq<Event<O>>)
    requires Inv(m) && WaitsThrough(m, es)
    ensures Inv(Run(m, es)) && SameCommitted(m, Run(m, es))
    decreases |es|
  {
    if es != [] {
      var prefix := es[..|es| - 1];
      forall k | 0 <= k < |prefix| ensures Run(m, prefix[..k]).phase.WaitingConfirm? {
        assert prefix[..k] == es[..k];
      }
      WaitingFreezes(m, prefix);
      assert Run(m, prefix).phase.WaitingConfirm?;
      StepKeeps(Run(m, prefix), es[|es| - 1]);
      CommittedIsFrozen(Run(m, prefix), es[|es| - 1]);
    }
  }

  /**
   * Whatever is written meanwhile, what a transaction finally shows is exactly
   * the snapshot it took when it committed, for every object at once.
   */
  lemma TransactionShowsItsSnapshot<O>(m: Manager<O>, es: seq<Event<O>>)
    requires Inv(m) && m.phase.WaitingConfirm? && WaitsThrough(m, es)
    requires Run(m, es).phase.Idle?
    ensures Run(m, es).objects.Keys == m.objects.Keys
    ensures forall o :: o in m.objects ==> Run(m, es).objects[o].current == m.objects[o].committed
  {
    WaitingFreezes(m, es);
  }

  // ---------------------------------------------------------------------
  // No lost updates
  // ---------------------------------------------------------------------

  lemma StillCommitting<O>(m: Manager<O>, n: nat)
    requires Committing(m, n) && n > 0
    ensures n <= |m.commitListeners| && NoDuplicates(m.commitListeners) && m.commitListeners[0] in m.objects
  {
  }

  lemma FrontTaken<T>(s: seq<T>, s': seq<T>, n: nat)
    requires 0 < n <= |s| && s[1..] <= s'
    ensures s[..n] == [s[0]] + s'[..n - 1]
  {
    forall k | 0 <= k < n
      ensures s[..n][k] == ([s[0]] + s'[..n - 1])[k]
    {
      assert k > 0 ==> s'[k - 1] == s[1..][k - 1];
    }
  }

  lemma FrontMembers<T>(s: seq<T>, s': seq<T>, n: nat, x: T)
    requires 0 < n <= |s| && s[1..] <= s' && NoDuplicates(s)
    ensures x in s[..n] <==> x == s[0] || x in s'[..n - 1]
    ensures s[0] !in s'[..n - 1]
  {
    FrontTaken(s, s', n);
    assert forall k :: 0 <= k < n - 1 ==> s'[k] == s[k + 1];
  }

  lemma CommitListenerCopies<O>(m: Manager<O>, es: seq<Edit<O>>)
    requires m.commitListeners != [] && m.commitListeners[0] in m.objects
    ensures var m', front := CommitListener(m, es), m.commitListeners[0];
            && m'.objects.Keys == m.objects.Keys
            && m'.objects[front].committed == m'.objects[front].pending
            && (forall o :: o in m.objects && o != front ==> m'.objects[o].committed == m.objects[o].committed)
            && m.commitListeners[1..] <= m'.commitListeners
            && m'.applyListeners == m.applyListeners + [front]
  {
    hide NotifyCommit;
    NotifyCommitFrame(Enlist(m, m.commitListeners[0]), m.commitListeners[0], es);
  }

  /** The object's own listener is not among those that run. */
  lemma {:induction false} EmitCommitPasses<O>(m: Manager<O>, n: nat, scripts: seq<seq<Edit<O>>>, o: O)
    requires Committing(m, n) && o in m.objects && o !in m.commitListeners[..n]
    ensures var m' := EmitCommit(m, n, scripts);
            && o in m'.objects && m'.objects[o].committed == m.objects[o].committed
            && (o in m.applyListeners ==> o in m'.applyListeners)
    decreases n
  {
    hide CommitListener, Committing, NoDuplicates, EmitCommit;
    if n == 0 {
      EmitCommitDone(m, scripts);
    } else {
      StillCommitting(m, n);
      var m1 := CommitListener(m, Head(scripts));
      CommitListenerKeeps(m, n, Head(scripts));
      CommitListenerCopies(m, Head(scripts));
      FrontMembers(m.commitListeners, m1.commitListeners, n, o);
      EmitCommitUnfolds(m, n, scripts);
      EmitCommitPasses(m1, n - 1, Tail(scripts), o);
    }
  }

  /**
   * The commit signal snapshots an object at the moment its own listener ends,
   * whatever listeners write before or after, and only then: the k-th one's
   * committed state is its pending state of that moment.
   */
  lemma {:induction false} EmitCommitSnapshots<O>(m: Manager<O>, n: nat, scripts: seq<seq<Edit<O>>>, k: nat)
    requires Committing(m, n) && k < n && n <= |m.commitListeners| && m.commitListeners[k] in m.objects
    ensures var o, m', at := m.commitListeners[k], EmitCommit(m, n, scripts), EmitCommit(m, k + 1, scripts);
            && o in at.objects && o in m'.objects && o in m'.applyListeners
            && at.objects[o].committed == at.objects[o].pending
            && m'.objects[o].committed == at.objects[o].pending
    decreases n
  {
    hide CommitListener, Committing, NoDuplicates, EmitCommit;
    StillCommitting(m, n);
    var m1, o := CommitListener(m, Head(scripts)), m.commitListeners[k];
    CommitListenerKeeps(m, n, Head(scripts));
    CommitListenerCopies(m, Head(scripts));
    EmitCommitUnfolds(m, n, scripts);
    EmitCommitTakes(m, k + 1, scripts);
    if k == 0 {
      FrontMembers(m.commitListeners, m1.commitListeners, n, o);
      EmitCommitDone(m1, Tail(scripts));
      EmitCommitPasses(m1, n - 1, Tail(scripts), o);
    } else {
      StaysInLine(m, m1, n, k);
      EmitCommitSnapshots(m1, n - 1, Tail(scripts), k - 1);
    }
  }

  lemma EmitCommitTakes<O>(m: Manager<O>, n: nat, scripts: seq<seq<Edit<O>>>)
    requires n > 0 && m.commitListeners != [] && m.commitListeners[0] in m.objects
    ensures EmitCommit(m, n, scripts) == EmitCommit(CommitListener(m, Head(scripts)), n - 1, Tail(scripts))
  {
    hide CommitListener;
  }

  lemma StaysInLine<O>(m: Manager<O>, m1: Manager<O>, n: nat, k: nat)
    requires 0 < k < n <= |m.commitListeners| && m.commitListeners[1..] <= m1.commitListeners
    ensures n - 1 <= |m1.commitListeners| && m1.commitListeners[k - 1] == m.commitListeners[k]
  {
    assert m.commitListeners[1..][k - 1] == m.commitListeners[k];
  }

  /** The manager when its commit signal starts. */
  function CommitBegins<O>(m: Manager<O>, script: Script<O>): Manager<O> {
    ApplyEdits(m.(idle := false, phase := BeforeCommit, transaction := m.transaction + 1), script.beforeCommit)
      .(queued := false, phase := Commit)
  }

  /**
   * An object dirty when the commit signal starts is snapshotted in this very
   * transaction, with the pending state it has when its own listener ends, and
   * every other object keeps the snapshot it had.
   */
  lemma DirtyIsSnapshotted<O>(m: Manager<O>, script: Script<O>, o: O)
    requires Inv(m) && m.idle && o in m.objects
    ensures var before, after := CommitBegins(m, script), CommitPart(m, script);
            && o in before.objects && o in after.objects
            && (m.objects[o].dirty ==> before.objects[o].dirty)
            && (before.objects[o].dirty ==>
                  && o in before.commitListeners && o in after.applyListeners
                  && var at := EmitCommit(before, IndexOf(before.commitListeners, o) + 1, script.duringCommit);
                     && o in at.objects && at.objects[o].committed == at.objects[o].pending
                     && after.objects[o].committed == at.objects[o].pending)
            && (!before.objects[o].dirty ==> after.objects[o].committed == m.objects[o].committed)
  {
    hide Inv, Committing, EmitCommit, ApplyEdits, NoDuplicates;
    BeginsEdited(m, script, o);
    var before := CommitBegins(m, script);
    var n := |before.commitListeners|;
    assert before.commitListeners[..n] == before.commitListeners;
    assert CommitPart(m, script) == EmitCommit(before, n, script.duringCommit);
    hide CommitPart, CommitBegins;
    if before.objects[o].dirty {
      EmitCommitSnapshots(before, n, script.duringCommit, IndexOf(before.commitListeners, o));
    } else {
      EmitCommitPasses(before, n, script.duringCommit, o);
    }
  }

  lemma BeginsEdited<O>(m: Manager<O>, script: Script<O>, o: O)
    requires Inv(m) && m.idle && o in m.objects
    ensures var before := CommitBegins(m, script);
            && Committing(before, |before.commitListeners|) && o in before.objects && before.objects.Keys == m.objects.Keys
            && (m.objects[o].dirty ==> before.objects[o].dirty)
            && (before.objects[o].dirty <==> o in before.commitListeners)
            && before.objects[o].committed == m.objects[o].committed
  {
    CommitStarts(m, script);
    EditsOnlyEdit(m.(idle := false, phase := BeforeCommit, transaction := m.transaction + 1), script.beforeCommit);
    hide ApplyEdits;
  }

  /** No edit writes the pending state of o. */
  ghost predicate Untouched<O>(es: seq<Edit<O>>, o: O) {
    forall i :: 0 <= i < |es| && es[i].target == o ==> !es[i].change.SetPending?
  }

  ghost predicate AllUntouched<O>(scripts: seq<seq<Edit<O>>>, o: O) {
    forall i :: 0 <= i < |scripts| ==> Untouched(scripts[i], o)
  }

  lemma MarkDirtyKeepsPending<O>(m: Manager<O>, p: O, o: O)
    requires o in m.objects
    ensures p in m.objects ==>
              o in MarkDirty(m, p).objects && MarkDirty(m, p).objects[o].pending == m.objects[o].pending
  {
  }

  lemma {:induction false} UntouchedKeepsPending<O>(m: Manager<O>, es: seq<Edit<O>>, o: O)
    requires o in m.objects && Untouched(es, o)
    ensures o in ApplyEdits(m, es).objects
    ensures ApplyEdits(m, es).objects[o].pending == m.objects[o].pending
    decreases |es|
  {
    if es != [] {
      hide MarkDirty, EnsureQueued;
      assert es[0].target == o ==> !es[0].change.SetPending?;
      MarkDirtyKeepsPending(m, es[0].target, o);
      hide ApplyEdit;
      UntouchedKeepsPending(ApplyEdit(m, es[0]), es[1..], o);
    }
  }

  lemma NotifyCommitKeepsPending<O>(m: Manager<O>, front: O, es: seq<Edit<O>>, o: O)
    requires front in m.objects && o in m.objects && Untouched(es, o)
    ensures o in NotifyCommit(m, front, es).objects
    ensures NotifyCommit(m, front, es).objects[o].pending == m.objects[o].pending
  {
    if m.objects[front].isWindow {
      ViewCommitOnlyConfigures(m, front);
      UntouchedKeepsPending(ViewCommit(m, front), es, o);
    }
  }

  lemma CommitListenerKeepsPending<O>(m: Manager<O>, es: seq<Edit<O>>, o: O)
    requires m.commitListeners != [] && m.commitListeners[0] in m.objects && o in m.objects && Untouched(es, o)
    ensures var m' := CommitListener(m, es); o in m'.objects && m'.objects[o].pending == m.objects[o].pending
  {
    var front := m.commitListeners[0];
    NotifyCommitFrame(Enlist(m, front), front, es);
    NotifyCommitKeepsPending(Enlist(m, front), front, es, o);
  }

  /**
   * If nothing rewrites the object's pending state during the signal, that is
   * what it had when the signal started.
   */
  lemma {:induction false} EmitCommitKeepsPending<O>(m: Manager<O>, n: nat, scripts: seq<seq<Edit<O>>>, o: O)
    requires o in m.objects && AllUntouched(scripts, o)
    ensures var m' := EmitCommit(m, n, scripts); o in m'.objects && m'.objects[o].pending == m.objects[o].pending
    decreases n
  {
    hide CommitListener, AllUntouched;
    if n > 0 && m.commitListeners != [] && m.commitListeners[0] in m.objects {
      HeadAndTailUntouched(scripts, o);
      CommitListenerKeepsPending(m, Head(scripts), o);
      EmitCommitKeepsPending(CommitListener(m, Head(scripts)), n - 1, Tail(scripts), o);
    }
  }

  lemma HeadAndTailUntouched<O>(scripts: seq<seq<Edit<O>>>, o: O)
    requires AllUntouched(scripts, o)
    ensures Untouched(Head(scripts), o) && AllUntouched(Tail(scripts), o)
  {
  }

  /** A dirty object that no listener rewrites is snapshotted as it is when the signal starts. */
  lemma UntouchedIsSnapshotted<O>(m: Manager<O>, script: Script<O>, o: O)
    requires Inv(m) && m.idle && o in m.objects && AllUntouched(script.duringCommit, o)
    ensures var before, after := CommitBegins(m, script), CommitPart(m, script);
            && o in before.objects && o in after.objects
            && (before.objects[o].dirty ==> after.objects[o].committed == before.objects[o].pending)
  {
    DirtyIsSnapshotted(m, script, o);
    BeginsEdited(m, script, o);
    var before := CommitBegins(m, script);
    hide Inv, EmitCommit, CommitPart, CommitBegins, AllUntouched;
    if before.objects[o].dirty {
      var k := IndexOf(before.commitListeners, o) + 1;
      EmitCommitKeepsPending(before, k, script.duringCommit, o);
    }
  }

  // ---------------------------------------------------------------------
  // Locks
  // ---------------------------------------------------------------------

  /** An acknowledgement that does anything answers the configure of this transaction. */
  lemma OnlyThisTransactionsConfigureReleases<O>(m: Manager<O>, o: O, serial: nat, script: Script<O>)
    requires Inv(m) && Step(m, Acknowledged(o, serial, script)) != m
    ensures serial in m.sent && m.sent[serial] == Sent(o, m.transaction)
    ensures m.phase.WaitingConfirm? && o in Configuring(m)
  {
    SurfaceCommitKeeps(m, o, serial, script);
  }

  /** No lock waits for this serial, and none ever will. */
  ghost predicate Spent<O>(m: Manager<O>, serial: nat) {
    serial <= m.lastSerial &&
    forall o :: o in m.objects && m.objects[o].isConfiguring ==> m.objects[o].configureSerial != serial
  }

  lemma SendConfigureKeepsSpent<O>(m: Manager<O>, o: O, serial: nat)
    requires Spent(m, serial) && o in m.objects
    ensures Spent(SendConfigure(m, o), serial) && SendConfigure(m, o).objects[o].configureSerial != serial
  {
  }

  lemma BeginConfigureKeepsSpent<O>(m: Manager<O>, o: O, serial: nat)
    requires Spent(m, serial) && o in m.objects && m.objects[o].configureSerial != serial
    ensures Spent(BeginConfigure(m, o), serial)
  {
  }

  lemma NotifyCommitKeepsSpent<O>(m: Manager<O>, o: O, es: seq<Edit<O>>, serial: nat)
    requires Spent(m, serial) && o in m.objects
    ensures Spent(NotifyCommit(m, o, es), serial)
  {
    if m.objects[o].isWindow {
      SendConfigureKeepsSpent(m, o, serial);
      BeginConfigureKeepsSpent(SendConfigure(m, o), o, serial);
      EditsOnlyEdit(ViewCommit(m, o), es);
    }
  }

  lemma CommitListenerKeepsSpent<O>(m: Manager<O>, es: seq<Edit<O>>, serial: nat)
    requires Spent(m, serial) && m.commitListeners != [] && m.commitListeners[0] in m.objects
    ensures Spent(CommitListener(m, es), serial)
  {
    var o := m.commitListeners[0];
    NotifyCommitKeepsSpent(Enlist(m, o), o, es, serial);
  }

  lemma {:induction false} EmitCommitKeepsSpent<O>(m: Manager<O>, n: nat, scripts: seq<seq<Edit<O>>>, serial: nat)
    requires Spent(m, serial)
    ensures Spent(EmitCommit(m, n, scripts), serial)
    decreases n
  {
    if n > 0 && m.commitListeners != [] && m.commitListeners[0] in m.objects {
      CommitListenerKeepsSpent(m, Head(scripts), serial);
      EmitCommitKeepsSpent(CommitListener(m, Head(scripts)), n - 1, Tail(scripts), serial);
    }
  }

  lemma {:induction false} EmitApplyKeepsSpent<O>(m: Manager<O>, n: nat, scripts: seq<seq<Edit<O>>>, serial: nat)
    requires Spent(m, serial)
    ensures Spent(EmitApply(m, n, scripts), serial)
    decreases n
  {
    if n > 0 && m.applyListeners != [] && m.applyListeners[0] in m.objects {
      EditsOnlyEdit(ApplyListener(m, []), Head(scripts));
      assert Spent(ApplyListener(m, []), serial);
      EmitApplyKeepsSpent(ApplyListener(m, Head(scripts)), n - 1, Tail(scripts), serial);
    }
  }

  lemma ProgressKeepsSpent<O>(m: Manager<O>, script: Script<O>, serial: nat)
    requires Spent(m, serial)
    ensures Spent(Progress(m, script), serial)
  {
    if m.numWaiting == 0 {
      var m1 := m.(numConfigures := 0, phase := Apply);
      EmitApplyKeepsSpent(m1, |m1.applyListeners|, script.duringApply, serial);
      EditsOnlyEdit(EmitApply(m1, |m1.applyListeners|, script.duringApply).(phase := AfterApply), script.afterApply);
    }
  }

  lemma CommitPartKeepsSpent<O>(m: Manager<O>, script: Script<O>, serial: nat)
    requires Spent(m, serial)
    ensures Spent(CommitPart(m, script), serial)
  {
    var m0 := m.(idle := false, phase := BeforeCommit, transaction := m.transaction + 1);
    EditsOnlyEdit(m0, script.beforeCommit);
    var m2 := ApplyEdits(m0, script.beforeCommit).(queued := false, phase := Commit);
    EmitCommitKeepsSpent(m2, |m2.commitListeners|, script.duringCommit, serial);
  }

  lemma StepKeepsSpent<O>(m: Manager<O>, e: Event<O>, serial: nat)
    requires Spent(m, serial)
    ensures Spent(Step(m, e), serial)
  {
    match e
    case Changed(edit) =>
      EditOnlyEdits(m, edit);
      hide ApplyEdit;
    case IdleFires(script) =>
      hide Progress, CommitPart;
      CommitPartKeepsSpent(m, script, serial);
      ProgressKeepsSpent(ArmPart(CommitPart(m, script), script), script, serial);
    case Acknowledged(o, s, script) => AcknowledgementKeepsSpent(m, o, s, script, serial);
    case TimerFires(script) =>
      hide Progress;
      ProgressKeepsSpent(m.(timer := false, numWaiting := 0), script, serial);
    case SerialTaken =>
  }

  lemma AcknowledgementKeepsSpent<O>(m: Manager<O>, o: O, s: nat, script: Script<O>, serial: nat)
    requires Spent(m, serial)
    ensures Spent(SurfaceCommit(m, o, s, script), serial)
  {
    hide Progress;
    if Releases(m, o, s) && m.numWaiting > 0 {
      var m1 := m.(objects := m.objects[o := m.objects[o].(isConfiguring := false)]);
      ProgressKeepsSpent(m1.(numWaiting := m.numWaiting - 1, timer := m.timer && m.numWaiting > 1), script, serial);
    }
  }

  /** In every state from here on, an acknowledgement of a spent serial does nothing. */
  lemma {:induction false} SpentSerialsStaySpent<O>(m: Manager<O>, es: seq<Event<O>>, serial: nat)
    requires Spent(m, serial)
    ensures Spent(Run(m, es), serial)
    ensures forall o, script :: Step(Run(m, es), Acknowledged(o, serial, script)) == Run(m, es)
    decreases |es|
  {
    if es != [] {
      SpentSerialsStaySpent(m, es[..|es| - 1], serial);
      StepKeepsSpent(Run(m, es[..|es| - 1]), es[|es| - 1], serial);
    }
  }

  /** An acknowledgement that opens a lock spends its serial. */
  lemma ReleaseSpends<O>(m: Manager<O>, o: O, serial: nat, script: Script<O>)
    requires Inv(m) && Releases(m, o, serial)
    ensures Spent(Step(m, Acknowledged(o, serial, script)), serial)
  {
    SurfaceCommitKeeps(m, o, serial, script);
    assert ConfigureIsFresh(m, o);
    var m1 := m.(objects := m.objects[o := m.objects[o].(isConfiguring := false)]);
    var m2 := m1.(numWaiting := m.numWaiting - 1, timer := m.timer && m.numWaiting > 1);
    forall p | p in m2.objects && m2.objects[p].isConfiguring
      ensures m2.objects[p].configureSerial != serial
    {
      assert ConfigureIsFresh(m, p);
    }
    ProgressKeepsSpent(m2, script, serial);
  }

  /** A lock opens at most once: the same acknowledgement does nothing in any later state, for any window. */
  lemma LockOpensOnce<O>(m: Manager<O>, o: O, serial: nat, script: Script<O>, es: seq<Event<O>>)
    requires Inv(m) && Releases(m, o, serial)
    ensures var later := Run(Step(m, Acknowledged(o, serial, script)), es);
            forall p, again :: Step(later, Acknowledged(p, serial, again)) == later
  {
    ReleaseSpends(m, o, serial, script);
    SpentSerialsStaySpent(Step(m, Acknowledged(o, serial, script)), es, serial);
  }

  /** Once a transaction is over, by acknowledgement or by timeout, nothing it sent can open a lock again. */
  lemma LateAcknowledgementsDoNothing<O>(m: Manager<O>, serial: nat, es: seq<Event<O>>)
    requires Inv(m) && m.phase.Idle? && serial in m.sent
    ensures forall p, script :: Step(Run(m, es), Acknowledged(p, serial, script)) == Run(m, es)
  {
    assert forall o :: o in m.objects ==> !m.objects[o].isConfiguring;
    SpentSerialsStaySpent(m, es, serial);
  }

  // ---------------------------------------------------------------------
  // Every transaction ends
  // ---------------------------------------------------------------------

  /** Each of the windows, in turn, acknowledges the configure it was last sent. */
  function AcknowledgeAll<O>(m: Manager<O>, windows: seq<O>, script: Script<O>): Manager<O>
    decreases |windows|
  {
    if windows == [] || windows[0] !in m.objects then m
    else AcknowledgeAll(Step(m, Acknowledged(windows[0], m.objects[windows[0]].configureSerial, script)),
                        windows[1..], script)
  }

  /** One lock of several opens, and the transaction goes on without it; the only one ends it. */
  lemma OneLockOpens<O>(m: Manager<O>, o: O, script: Script<O>)
    requires Inv(m) && m.phase.WaitingConfirm? && o in Configuring(m)
    ensures var m1 := Step(m, Acknowledged(o, m.objects[o].configureSerial, script));
            && Inv(m1)
            && (m.numWaiting > 1 ==> m1.phase.WaitingConfirm? && m1.numWaiting == m.numWaiting - 1)
            && (m.numWaiting > 1 ==> Configuring(m1) == Configuring(m) - {o})
            && (m.numWaiting == 1 ==> m1.phase.Idle?)
  {
    assert ConfigureIsFresh(m, o);
    SurfaceCommitKeeps(m, o, m.objects[o].configureSerial, script);
    var m1 := Step(m, Acknowledged(o, m.objects[o].configureSerial, script));
    if m.numWaiting > 1 {
      assert Configuring(m1) == Configuring(m) - {o};
    } else {
      ProgressKeeps(m.(objects := m.objects[o := m.objects[o].(isConfiguring := false)],
                       numWaiting := 0, timer := false), script);
    }
  }

  /**
   * A waiting transaction ends with exactly the last of its locks: after k of
   * them it still waits unless k is all there are. Under txn_wait the inflated
   * count keeps it waiting whatever the clients do.
   */
  lemma {:induction false} TransactionEndsWithItsLastLock<O>(m: Manager<O>, windows: seq<O>, script: Script<O>)
    requires Inv(m) && m.phase.WaitingConfirm?
    requires NoDuplicates(windows) && forall o :: o in windows ==> o in Configuring(m)
    ensures Inv(AcknowledgeAll(m, windows, script))
    ensures AcknowledgeAll(m, windows, script).phase.Idle? <==> |windows| == m.numWaiting
    ensures |windows| < m.numWaiting ==> AcknowledgeAll(m, windows, script).numWaiting == m.numWaiting - |windows|
    decreases |windows|
  {
    hide Inv, Step;
    if windows != [] {
      var o := windows[0];
      assert o in Configuring(m);
      OneLockOpens(m, o, script);
      var m1 := Step(m, Acknowledged(o, m.objects[o].configureSerial, script));
      if m.numWaiting > 1 {
        TransactionEndsWithItsLastLock(m1, windows[1..], script);
      } else {
        NoMoreThanWaiting(m, windows);
        assert windows[1..] == [];
      }
    } else {
      WaitsForSomething(m);
    }
  }

  lemma WaitsForSomething<O>(m: Manager<O>)
    requires Inv(m) && m.phase.WaitingConfirm?
    ensures m.numWaiting > 0
  {
  }

  lemma NoMoreThanWaiting<O>(m: Manager<O>, windows: seq<O>)
    requires Inv(m) && m.phase.WaitingConfirm?
    requires NoDuplicates(windows) && forall o :: o in windows ==> o in Configuring(m)
    ensures |windows| <= m.numWaiting
  {
    NoMoreThanLocks(Configuring(m), windows);
  }

  lemma {:induction false} NoMoreThanLocks<O>(locks: set<O>, windows: seq<O>)
    requires NoDuplicates(windows) && forall o :: o in windows ==> o in locks
    ensures |windows| <= |locks|
    decreases |windows|
  {
    if windows != [] {
      NoMoreThanLocks(locks - {windows[0]}, windows[1..]);
    }
  }

  /** The timer ends it at once. */
  lemma TimeoutEndsTransaction<O>(m: Manager<O>, script: Script<O>)
    requires Inv(m) && m.phase.WaitingConfirm?
    ensures Step(m, TimerFires(script)).phase.Idle? && Inv(Step(m, TimerFires(script)))
    ensures forall o :: o in m.objects ==>
              o in Step(m, TimerFires(script)).objects &&
              Step(m, TimerFires(script)).objects[o].current == m.objects[o].committed
  {
    HandleTimeoutKeeps(m, script);
    CommittedIsFrozen(m, TimerFires(script));
    CurrentChangesAsAWhole(m, TimerFires(script));
  }
}
