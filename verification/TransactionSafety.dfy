/** What every run of the transaction protocol keeps. */
module TransactionSafety {
  import opened Seqs
  import opened Transaction

  ghost function Configuring<O>(m: Manager<O>): set<O> {
    set o | o in m.objects && m.objects[o].isConfiguring
  }

  /** Every lock that is held belongs to a configure of the transaction under way. */
  ghost predicate ConfigureIsFresh<O>(m: Manager<O>, o: O)
    requires o in m.objects
  {
    var serial := m.objects[o].configureSerial;
    0 < serial && serial in m.sent && m.sent[serial] == Sent(o, m.transaction)
  }

  /** Exactly the dirty objects wait for the next commit, each once. */
  ghost predicate DirtyQueued<O>(m: Manager<O>) {
    && NoDuplicates(m.commitListeners)
    && (forall o :: o in m.commitListeners ==> o in m.objects && m.objects[o].dirty)
    && (forall o :: o in m.objects && m.objects[o].dirty ==> o in m.commitListeners)
  }

  /** Only objects that wait to be applied differ from what is shown. */
  ghost predicate ApplyPending<O>(m: Manager<O>) {
    && NoDuplicates(m.applyListeners)
    && (forall o :: o in m.applyListeners ==> o in m.objects)
    && (forall o :: o in m.objects && o !in m.applyListeners ==> m.objects[o].current == m.objects[o].committed)
  }

  ghost predicate LocksFresh<O>(m: Manager<O>) {
    forall o :: o in m.objects && m.objects[o].isConfiguring ==>
      o in m.applyListeners && m.objects[o].isWindow && ConfigureIsFresh(m, o)
  }

  ghost predicate SerialsUsed<O>(m: Manager<O>) {
    forall serial :: serial in m.sent ==> serial <= m.lastSerial && m.sent[serial].transaction <= m.transaction
  }

  /** The part of the invariant that holds at every point of a callback. */
  ghost predicate Linked<O>(m: Manager<O>) {
    DirtyQueued(m) && ApplyPending(m) && LocksFresh(m) && SerialsUsed(m) && (m.idle ==> m.phase.Idle?)
  }

  /** The invariant between two callbacks of the event loop. */
  ghost predicate Inv<O>(m: Manager<O>) {
    && Linked(m)
    && m.afterApplyListeners == []
    && (m.commitListeners != [] ==> m.queued)
    && (m.phase.Idle? || m.phase.WaitingConfirm?)
    && (m.phase.Idle? ==> (m.queued ==> m.idle) && m.applyListeners == [] && m.numWaiting == 0 && !m.timer)
    && (m.phase.WaitingConfirm? ==>
          && m.timer && m.numWaiting > 0 && !m.noatomic
          && m.numWaiting == |Configuring(m)| + if m.txnWait then TXN_WAIT_INFLATION else 0)
  }

  /** A manager just created, around objects just allocated. */
  ghost predicate Init<O>(m: Manager<O>) {
    && m.phase.Idle? && !m.queued && !m.idle && !m.timer && m.numWaiting == 0
    && m.commitListeners == [] && m.applyListeners == [] && m.afterApplyListeners == []
    && m.sent == map[]
    && forall o :: o in m.objects ==>
         !m.objects[o].dirty && !m.objects[o].isConfiguring && m.objects[o].current == m.objects[o].committed
  }

  // ---------------------------------------------------------------------
  // Edits from outside
  // ---------------------------------------------------------------------

  /** What an edit leaves alone: all but pending state, dirtiness and the queue. */
  ghost predicate OnlyEdited<O>(m: Manager<O>, m': Manager<O>) {
    && m'.objects.Keys == m.objects.Keys
    && m' == m.(queued := m'.queued, idle := m'.idle, commitListeners := m'.commitListeners, objects := m'.objects)
    && m.commitListeners <= m'.commitListeners
    && (m.queued ==> m'.queued)
    && (m'.commitListeners != m.commitListeners ==> m'.queued)
    && (!m.phase.Idle? ==> m'.idle == m.idle)
    && (m.phase.Idle? && (m.queued ==> m.idle) ==> m'.queued ==> m'.idle)
    && forall o :: o in m.objects ==> ObjectOnlyEdited(m.objects[o], m'.objects[o])
  }

  ghost predicate ObjectOnlyEdited<O>(b: Object<O>, b': Object<O>) {
    && b' == b.(dirty := b'.dirty, pending := b'.pending, live := b'.live, forceReconfigure := b'.forceReconfigure)
    && (b.dirty ==> b'.dirty)
  }

  lemma RewriteOnlyEdits<O>(b: Object<O>, change: Change<O>)
    ensures ObjectOnlyEdited(b, Rewrite(b, change)) && Rewrite(b, change).dirty == b.dirty
  {
  }

  lemma MarkDirtyQueues<O>(m: Manager<O>, o: O)
    requires DirtyQueued(m) && o in m.objects
    ensures DirtyQueued(MarkDirty(m, o))
  {
    if !m.objects[o].dirty {
      AppendKeepsNoDuplicates(m.commitListeners, o);
    }
  }

  lemma MarkDirtyOnlyEdits<O>(m: Manager<O>, o: O)
    requires o in m.objects
    ensures OnlyEdited(m, MarkDirty(m, o))
  {
    hide ObjectOnlyEdited;
    MarkDirtyOnlyMarks(m, o);
    if m.objects[o].dirty {
      assert MarkDirty(m, o) == m;
    }
  }

  lemma MarkDirtyOnlyMarks<O>(m: Manager<O>, o: O)
    requires o in m.objects
    ensures forall p :: p in m.objects ==>
              p in MarkDirty(m, o).objects && ObjectOnlyEdited(m.objects[p], MarkDirty(m, o).objects[p])
  {
  }

  lemma EditQueues<O>(m: Manager<O>, e: Edit<O>)
    requires DirtyQueued(m)
    ensures DirtyQueued(ApplyEdit(m, e))
  {
    if e.target in m.objects {
      if e.change.SetDirty? {
        MarkDirtyQueues(m, e.target);
      } else {
        assert Rewrite(m.objects[e.target], e.change).dirty == m.objects[e.target].dirty;
      }
    }
  }

  lemma EditOnlyEdits<O>(m: Manager<O>, e: Edit<O>)
    ensures OnlyEdited(m, ApplyEdit(m, e))
  {
    if e.target in m.objects {
      if e.change.SetDirty? {
        MarkDirtyOnlyEdits(m, e.target);
      } else {
        RewriteOnlyEdits(m.objects[e.target], e.change);
      }
    }
  }

  lemma EditedStaysLinked<O>(m: Manager<O>, m': Manager<O>)
    requires Linked(m) && OnlyEdited(m, m') && DirtyQueued(m')
    ensures Linked(m')
  {
  }

  lemma OnlyEditedTransitive<O>(m: Manager<O>, m': Manager<O>, m'': Manager<O>)
    requires OnlyEdited(m, m') && OnlyEdited(m', m'')
    ensures OnlyEdited(m, m'')
  {
    hide ObjectOnlyEdited;
    PrefixTransitive(m.commitListeners, m'.commitListeners, m''.commitListeners);
    forall o | o in m.objects
      ensures ObjectOnlyEdited(m.objects[o], m''.objects[o])
    {
      ObjectTransitive(m.objects[o], m'.objects[o], m''.objects[o]);
    }
  }

  lemma PrefixTransitive<T>(a: seq<T>, b: seq<T>, c: seq<T>)
    requires a <= b && b <= c
    ensures a <= c && (c == a ==> b == a)
  {
  }

  lemma ObjectTransitive<O>(b: Object<O>, b': Object<O>, b'': Object<O>)
    requires ObjectOnlyEdited(b, b') && ObjectOnlyEdited(b', b'')
    ensures ObjectOnlyEdited(b, b'')
  {
  }

  lemma ConfiguringKept<O>(m: Manager<O>, m': Manager<O>)
    requires OnlyEdited(m, m')
    ensures Configuring(m') == Configuring(m)
  {
  }

  lemma {:induction false} EditsQueue<O>(m: Manager<O>, es: seq<Edit<O>>)
    requires DirtyQueued(m)
    ensures DirtyQueued(ApplyEdits(m, es))
    decreases |es|
  {
    if es != [] {
      EditQueues(m, es[0]);
      EditsQueue(ApplyEdit(m, es[0]), es[1..]);
    }
  }

  lemma {:induction false} EditsOnlyEdit<O>(m: Manager<O>, es: seq<Edit<O>>)
    ensures OnlyEdited(m, ApplyEdits(m, es))
    decreases |es|
  {
    if es != [] {
      EditOnlyEdits(m, es[0]);
      EditsOnlyEdit(ApplyEdit(m, es[0]), es[1..]);
      OnlyEditedTransitive(m, ApplyEdit(m, es[0]), ApplyEdits(m, es));
    }
  }

  lemma EditsKeep<O>(m: Manager<O>, es: seq<Edit<O>>)
    requires Linked(m)
    ensures Linked(ApplyEdits(m, es)) && OnlyEdited(m, ApplyEdits(m, es))
    ensures Configuring(ApplyEdits(m, es)) == Configuring(m)
  {
    EditsQueue(m, es);
    EditsOnlyEdit(m, es);
    EditedStaysLinked(m, ApplyEdits(m, es));
    ConfiguringKept(m, ApplyEdits(m, es));
  }

  // ---------------------------------------------------------------------
  // The commit signal
  // ---------------------------------------------------------------------

  /** During the commit signal, with n listeners still to call. */
  ghost predicate Committing<O>(m: Manager<O>, n: nat) {
    && Linked(m) && m.phase.Commit? && !m.timer && m.afterApplyListeners == []
    && n <= |m.commitListeners|
    && (n < |m.commitListeners| ==> m.queued)
    && m.numWaiting == |Configuring(m)|
    && forall i :: 0 <= i < n ==> m.commitListeners[i] !in m.applyListeners
  }

  lemma EnlistQueues<O>(m: Manager<O>, n: nat)
    requires Committing(m, n) && n > 0
    ensures DirtyQueued(Enlist(m, m.commitListeners[0]))
  {
    var o := m.commitListeners[0];
    var m' := Enlist(m, o);
    assert m.commitListeners == [o] + m'.commitListeners;
    forall p | p in m'.objects && m'.objects[p].dirty ensures p in m'.commitListeners {
      assert p in m.commitListeners && p != o;
    }
  }

  lemma EnlistApplies<O>(m: Manager<O>, n: nat)
    requires Committing(m, n) && n > 0
    ensures ApplyPending(Enlist(m, m.commitListeners[0])) && LocksFresh(Enlist(m, m.commitListeners[0]))
  {
    AppendKeepsNoDuplicates(m.applyListeners, m.commitListeners[0]);
  }

  lemma EnlistKeeps<O>(m: Manager<O>, n: nat)
    requires Committing(m, n) && n > 0
    ensures Committing(Enlist(m, m.commitListeners[0]), n - 1)
  {
    var o := m.commitListeners[0];
    var m' := Enlist(m, o);
    EnlistQueues(m, n);
    EnlistApplies(m, n);
    assert Configuring(m') == Configuring(m);
    forall i | 0 <= i < n - 1 ensures m'.commitListeners[i] !in m'.applyListeners {
      assert m'.commitListeners[i] == m.commitListeners[i + 1];
    }
  }

  lemma SendConfigureKeeps<O>(m: Manager<O>, o: O, n: nat)
    requires Committing(m, n) && o in m.objects
    ensures Committing(SendConfigure(m, o), n)
    ensures ConfigureIsFresh(SendConfigure(m, o), o)
  {
    assert m.lastSerial + 1 !in m.sent;
    assert Configuring(SendConfigure(m, o)) == Configuring(m);
  }

  lemma BeginConfigureKeeps<O>(m: Manager<O>, o: O, n: nat)
    requires Committing(m, n) && o in m.applyListeners && m.objects[o].isWindow && ConfigureIsFresh(m, o)
    ensures Committing(BeginConfigure(m, o), n)
  {
    if o !in Configuring(m) {
      assert Configuring(BeginConfigure(m, o)) == Configuring(m) + {o};
    }
  }

  lemma ViewCommitKeeps<O>(m: Manager<O>, o: O, n: nat)
    requires Committing(m, n) && o in m.applyListeners && m.objects[o].isWindow
    ensures Committing(ViewCommit(m, o), n)
  {
    if ViewCommit(m, o) != m {
      SendConfigureKeeps(m, o, n);
      BeginConfigureKeeps(SendConfigure(m, o), o, n);
    }
  }

  lemma EditsKeepCommitting<O>(m: Manager<O>, es: seq<Edit<O>>, n: nat)
    requires Committing(m, n)
    ensures Committing(ApplyEdits(m, es), n)
  {
    EditsKeep(m, es);
  }

  lemma CopyPendingKeeps<O>(m: Manager<O>, o: O, n: nat)
    requires Committing(m, n) && o in m.applyListeners
    ensures Committing(CopyPending(m, o), n)
  {
    assert Configuring(CopyPending(m, o)) == Configuring(m);
  }

  lemma NotifyCommitKeeps<O>(m: Manager<O>, o: O, es: seq<Edit<O>>, n: nat)
    requires Committing(m, n) && o in m.applyListeners
    ensures Committing(NotifyCommit(m, o, es), n)
    ensures NotifyCommit(m, o, es).applyListeners == m.applyListeners
  {
    if m.objects[o].isWindow {
      ViewCommitKeeps(m, o, n);
      EditsKeepCommitting(ViewCommit(m, o), es, n);
      EditsOnlyEdit(ViewCommit(m, o), es);
    }
  }

  lemma CommitListenerKeeps<O>(m: Manager<O>, n: nat, es: seq<Edit<O>>)
    requires Committing(m, n) && n > 0
    ensures Committing(CommitListener(m, es), n - 1)
  {
    var o := m.commitListeners[0];
    var m1 := Enlist(m, o);
    EnlistKeeps(m, n);
    assert o in m1.applyListeners;
    NotifyCommitKeeps(m1, o, es, n - 1);
    CopyPendingKeeps(NotifyCommit(m1, o, es), o, n - 1);
  }

  lemma {:induction false} EmitCommitKeeps<O>(m: Manager<O>, n: nat, scripts: seq<seq<Edit<O>>>)
    requires Committing(m, n)
    ensures Committing(EmitCommit(m, n, scripts), 0)
    decreases n
  {
    if n > 0 {
      CommitListenerKeeps(m, n, Head(scripts));
      EmitCommitKeeps(CommitListener(m, Head(scripts)), n - 1, Tail(scripts));
    }
  }

  lemma EmitCommitUnfolds<O>(m: Manager<O>, n: nat, scripts: seq<seq<Edit<O>>>)
    requires Committing(m, n) && n > 0
    ensures EmitCommit(m, n, scripts) == EmitCommit(CommitListener(m, Head(scripts)), n - 1, Tail(scripts))
  {
  }

  lemma EmitCommitDone<O>(m: Manager<O>, scripts: seq<seq<Edit<O>>>)
    ensures EmitCommit(m, 0, scripts) == m
  {
  }

  lemma FirstIsObject<O>(m: Manager<O>, n: nat)
    requires Committing(m, n) && n > 0
    ensures m.commitListeners != [] && m.commitListeners[0] in m.objects && m.phase.Commit?
  {
    assert m.commitListeners[0] in m.commitListeners;
  }

  // ---------------------------------------------------------------------
  // The apply signal
  // ---------------------------------------------------------------------

  /** During the apply signal. */
  ghost predicate Applying<O>(m: Manager<O>) {
    && Linked(m) && m.phase.Apply? && !m.timer && m.numWaiting == 0
    && (m.commitListeners != [] ==> m.queued)
    && forall o :: o in m.afterApplyListeners ==>
         o in m.objects && o !in m.applyListeners && m.objects[o].current.dead
  }

  /** What the apply listener does before anything outside the protocol runs. */
  function ShowCommitted<O>(m: Manager<O>): Manager<O>
    requires m.applyListeners != [] && m.applyListeners[0] in m.objects
  {
    ApplyListener(m, [])
  }

  lemma ShowCommittedKeeps<O>(m: Manager<O>)
    requires Applying(m) && m.applyListeners != []
    ensures Applying(ShowCommitted(m))
  {
    var o := m.applyListeners[0];
    var m' := ShowCommitted(m);
    assert m.applyListeners == [o] + m'.applyListeners;
    forall p | p in m'.objects && p !in m'.applyListeners
      ensures m'.objects[p].current == m'.objects[p].committed
    {
      assert p == o || p !in m.applyListeners;
    }
    forall p | p in m'.afterApplyListeners 
      ensures p in m'.objects && p !in m'.applyListeners && m'.objects[p].current.dead
    {
      if p != o {
        assert p in m.afterApplyListeners;
      }
    }
    assert DirtyQueued(m');
    assert LocksFresh(m');
  }

  lemma ApplyListenerKeeps<O>(m: Manager<O>, es: seq<Edit<O>>)
    requires Applying(m) && m.applyListeners != []
    ensures Applying(ApplyListener(m, es))
    ensures ApplyListener(m, es).applyListeners == m.applyListeners[1..]
  {
    ShowCommittedKeeps(m);
    EditsKeep(ShowCommitted(m), es);
  }

  lemma FirstApplies<O>(m: Manager<O>)
    requires Applying(m)
    ensures m.applyListeners != [] ==> m.applyListeners[0] in m.objects
  {
    if m.applyListeners != [] {
      assert m.applyListeners[0] in m.applyListeners;
    }
  }

  lemma EmitApplyUnfolds<O>(m: Manager<O>, n: nat, scripts: seq<seq<Edit<O>>>)
    requires n > 0 && m.applyListeners != [] && m.applyListeners[0] in m.objects
    ensures EmitApply(m, n, scripts) == EmitApply(ApplyListener(m, Head(scripts)), n - 1, Tail(scripts))
  {
    hide ApplyListener;
  }

  lemma EmitApplyDone<O>(m: Manager<O>, scripts: seq<seq<Edit<O>>>)
    ensures EmitApply(m, 0, scripts) == m
  {
  }

  lemma {:induction false} EmitApplyKeeps<O>(m: Manager<O>, n: nat, scripts: seq<seq<Edit<O>>>)
    requires Applying(m) && n == |m.applyListeners|
    ensures Applying(EmitApply(m, n, scripts)) && EmitApply(m, n, scripts).applyListeners == []
    decreases n
  {
    if n > 0 {
      ApplyListenerKeeps(m, Head(scripts));
      EmitApplyKeeps(ApplyListener(m, Head(scripts)), n - 1, Tail(scripts));
    }
  }

  /** At the call of transaction_progress. */
  ghost predicate Confirming<O>(m: Manager<O>) {
    && Linked(m) && m.phase.WaitingConfirm? && m.afterApplyListeners == []
    && (m.commitListeners != [] ==> m.queued)
    && if m.numWaiting == 0 then !m.timer else Inv(m)
  }

  lemma ApplyStarts<O>(m: Manager<O>)
    requires Confirming(m) && m.numWaiting == 0
    ensures Applying(m.(numConfigures := 0, phase := Apply))
  {
    assert Linked(m.(numConfigures := 0, phase := Apply));
  }

  lemma AppliedDead<O>(m: Manager<O>)
    requires Applying(m)
    ensures forall o :: o in m.afterApplyListeners ==> o in m.objects && m.objects[o].current.dead
  {
  }

  lemma TimedOutConfirms<O>(m: Manager<O>)
    requires Inv(m) && m.timer
    ensures m.phase.WaitingConfirm? && Confirming(m.(timer := false, numWaiting := 0))
  {
    assert Linked(m.(timer := false, numWaiting := 0));
  }

  lemma ProgressKeeps<O>(m: Manager<O>, script: Script<O>)
    requires Confirming(m)
    ensures Inv(Progress(m, script))
    ensures Progress(m, script).phase.Idle? <==> m.numWaiting == 0
  {
    if m.numWaiting == 0 {
      var m1 := m.(numConfigures := 0, phase := Apply);
      ApplyStarts(m);
      EmitApplyKeeps(m1, |m1.applyListeners|, script.duringApply);
      var m2 := EmitApply(m1, |m1.applyListeners|, script.duringApply).(phase := AfterApply);
      assert Linked(m2);
      EditsKeep(m2, script.afterApply);
      var m3 := ApplyEdits(m2, script.afterApply);
      assert Linked(Progress(m, script));
    }
  }

  // ---------------------------------------------------------------------
  // Every step and every run
  // ---------------------------------------------------------------------

  /** What holds when the before-commit signal is over. */
  lemma CommitStarts<O>(m: Manager<O>, script: Script<O>)
    requires Inv(m) && m.idle
    ensures var m0 := m.(idle := false, phase := BeforeCommit, transaction := m.transaction + 1);
            var m2 := ApplyEdits(m0, script.beforeCommit).(queued := false, phase := Commit);
            OnlyEdited(m0, ApplyEdits(m0, script.beforeCommit)) && Committing(m2, |m2.commitListeners|)
  {
    var m0 := m.(idle := false, phase := BeforeCommit, transaction := m.transaction + 1);
    assert forall o :: o in m.objects ==> !m.objects[o].isConfiguring;
    assert Linked(m0);
    EditsKeep(m0, script.beforeCommit);
    var m1 := ApplyEdits(m0, script.beforeCommit);
    var m2 := m1.(queued := false, phase := Commit);
    assert Linked(m2);
    assert Configuring(m2) == Configuring(m1) == Configuring(m0) == {};
  }

  lemma CommitPartKeeps<O>(m: Manager<O>, script: Script<O>)
    requires Inv(m) && m.idle
    ensures Committing(CommitPart(m, script), 0)
  {
    CommitStarts(m, script);
    var m0 := m.(idle := false, phase := BeforeCommit, transaction := m.transaction + 1);
    var m2 := ApplyEdits(m0, script.beforeCommit).(queued := false, phase := Commit);
    EmitCommitKeeps(m2, |m2.commitListeners|, script.duringCommit);
  }

  lemma ArmPartKeeps<O>(m: Manager<O>, script: Script<O>)
    requires Committing(m, 0)
    ensures Confirming(ArmPart(m, script))
  {
    var m' := ArmPart(m, script);
    assert Configuring(m') == Configuring(m);
    assert Linked(m');
  }

  lemma HandleCommitKeeps<O>(m: Manager<O>, script: Script<O>)
    requires Inv(m) && m.idle
    ensures Inv(HandleCommit(m, script))
  {
    CommitPartKeeps(m, script);
    ArmPartKeeps(CommitPart(m, script), script);
    ProgressKeeps(ArmPart(CommitPart(m, script), script), script);
  }

  lemma HandleTimeoutKeeps<O>(m: Manager<O>, script: Script<O>)
    requires Inv(m) && m.timer
    ensures Inv(HandleTimeout(m, script)) && HandleTimeout(m, script).phase.Idle?
  {
    TimedOutConfirms(m);
    ProgressKeeps(m.(timer := false, numWaiting := 0), script);
  }

  lemma ReleasedConfirms<O>(m: Manager<O>, o: O, serial: nat)
    requires Inv(m) && Releases(m, o, serial)
    ensures m.phase.WaitingConfirm? && m.numWaiting > 0
    ensures Confirming(m.(objects := m.objects[o := m.objects[o].(isConfiguring := false)],
                          numWaiting := m.numWaiting - 1, timer := m.timer && m.numWaiting > 1))
  {
    assert o in Configuring(m) && o in m.applyListeners;
    var m1 := m.(objects := m.objects[o := m.objects[o].(isConfiguring := false)]);
    var m2 := m1.(numWaiting := m.numWaiting - 1, timer := m.timer && m.numWaiting > 1);
    assert Configuring(m2) == Configuring(m) - {o};
    assert Linked(m2);
  }

  lemma SurfaceCommitKeeps<O>(m: Manager<O>, o: O, serial: nat, script: Script<O>)
    requires Inv(m)
    ensures Inv(SurfaceCommit(m, o, serial, script))
    ensures Releases(m, o, serial) ==> m.phase.WaitingConfirm? && m.numWaiting > 0
    ensures Releases(m, o, serial) && m.numWaiting > 1 ==>
              var m' := SurfaceCommit(m, o, serial, script);
              m'.phase.WaitingConfirm? && m'.numWaiting == m.numWaiting - 1
  {
    if Releases(m, o, serial) {
      ReleasedConfirms(m, o, serial);
      ProgressKeeps(m.(objects := m.objects[o := m.objects[o].(isConfiguring := false)],
                       numWaiting := m.numWaiting - 1, timer := m.timer && m.numWaiting > 1), script);
    }
  }

  lemma StepKeeps<O>(m: Manager<O>, e: Event<O>)
    requires Inv(m)
    ensures Inv(Step(m, e))
  {
    match e
    case Changed(edit) =>
      EditsKeep(m, [edit]);
      assert ApplyEdits(m, [edit]) == ApplyEdit(m, edit);
    case IdleFires(script) => if m.idle { HandleCommitKeeps(m, script); }
    case Acknowledged(o, serial, script) => SurfaceCommitKeeps(m, o, serial, script);
    case TimerFires(script) => if m.timer { HandleTimeoutKeeps(m, script); }
    case SerialTaken =>
      assert Configuring(Step(m, e)) == Configuring(m);
      assert Linked(Step(m, e));
  }

  /** Every state that a run reaches between callbacks satisfies the invariant. */
  lemma {:induction false} RunKeeps<O>(m: Manager<O>, es: seq<Event<O>>)
    requires Init(m)
    ensures Inv(Run(m, es))
    decreases |es|
  {
    if es == [] {
      assert Configuring(m) == {};
    } else {
      RunKeeps(m, es[..|es| - 1]);
      StepKeeps(Run(m, es[..|es| - 1]), es[|es| - 1]);
    }
  }
}
