/**
 * Which key events reach the client: the forwarding part of handle_key_event in
 * src/input/keyboard.c, for a keyboard that is in no group.
 */
module KeyForwarding {
  import opened Keyboard

  /** consumed: some binding took it; grabbed: an input method holds the keyboard. */
  datatype KeyEvent = KeyEvent(keycode: nat, pressed: bool, consumed: bool, grabbed: bool)

  datatype Sent = Sent(keycode: nat, pressed: bool)

  /** What was sent and not released yet, all that was sent, and the keys that are down on the hardware. */
  datatype World = World(pressedSent: Shortcut, log: seq<Sent>, down: set<nat>)

  const IDLE: World := World(RELEASED, [], {})

  function UpdateFor(e: KeyEvent): Update { Update(e.keycode, e.pressed, e.keycode + 8, 0) }

  /** Whether the event goes to the client. */
  predicate Forwards(s: Shortcut, e: KeyEvent) {
    if e.pressed then !e.consumed && !e.grabbed else Found(s, UpdateFor(e))
  }

  function Handle(w: World, e: KeyEvent): World {
    var down := if e.pressed then w.down + {e.keycode} else w.down - {e.keycode};
    var log := if Forwards(w.pressedSent, e) then w.log + [Sent(e.keycode, e.pressed)] else w.log;
    var sent := if !e.pressed || Forwards(w.pressedSent, e) then Updated(w.pressedSent, UpdateFor(e)) else w.pressedSent;
    World(sent, log, down)
  }

  /** The hardware presses a key that is up, or releases one that is down. */
  predicate Physical(w: World, e: KeyEvent) { e.pressed <==> e.keycode !in w.down }

  /** The client has seen the key go down and not up. */
  predicate ClientHolds(log: seq<Sent>, keycode: nat) {
    log != [] && if log[|log| - 1].keycode == keycode then log[|log| - 1].pressed
                 else ClientHolds(log[..|log| - 1], keycode)
  }

  /** For every key the client sees press and release by turns, a press first. */
  ghost predicate Alternates(log: seq<Sent>) {
    forall i :: 0 <= i < |log| ==> (log[i].pressed <==> !ClientHolds(log[..i], log[i].keycode))
  }

  ghost predicate OnePerKeycode(s: seq<Entry>) {
    forall i, j :: 0 <= i < j < |s| ==> s[i].keycode != s[j].keycode
  }

  /** The client holds exactly what was recorded. */
  ghost predicate Agrees(w: World) {
    forall k: nat :: ClientHolds(w.log, k) <==> HasKeycode(w.pressedSent.entries, k)
  }

  ghost predicate Good(w: World) {
    && Agrees(w) && Alternates(w.log) && OnePerKeycode(w.pressedSent.entries) && InOrder(w.pressedSent)
    && w.pressedSent.lastRawModifiers == 0
    && forall k: nat :: HasKeycode(w.pressedSent.entries, k) ==> k in w.down
  }

  /** The press is sent, but there is no room to record it. */
  predicate Overflows(w: World, e: KeyEvent) {
    e.pressed && Forwards(w.pressedSent, e) && |w.pressedSent.entries| >= PRESSED_KEYS_CAP
  }

  // ---------------------------------------------------------------------
  // Entries
  // ---------------------------------------------------------------------

  lemma {:induction false} ErasedHas(s: seq<Entry>, keycode: nat, k: nat)
    ensures HasKeycode(Erased(s, keycode), k) <==> k != keycode && HasKeycode(s, k)
  {
    if s != [] {
      var init, last := s[..|s| - 1], s[|s| - 1];
      ErasedHas(init, keycode, k);
      var rest := Erased(init, keycode);
      assert HasKeycode(s, k) <==> HasKeycode(init, k) || last.keycode == k;
      if last.keycode == keycode {
        assert rest + [] == rest;
      } else {
        assert (rest + [last])[..|rest|] == rest;
        assert HasKeycode(rest + [last], k) <==> HasKeycode(rest, k) || last.keycode == k by {
          if HasKeycode(rest, k) {
            var i :| 0 <= i < |rest| && rest[i].keycode == k;
            assert (rest + [last])[i].keycode == k;
          }
          assert (rest + [last])[|rest|] == last;
        }
      }
    }
  }

  lemma {:induction false} ErasedOne(s: seq<Entry>, keycode: nat)
    requires OnePerKeycode(s)
    ensures OnePerKeycode(Erased(s, keycode))
  {
    if s != [] {
      var init, last := s[..|s| - 1], s[|s| - 1];
      ErasedOne(init, keycode);
      ErasedHas(init, keycode, last.keycode);
      assert forall i :: 0 <= i < |init| ==> init[i].keycode != last.keycode;
    }
  }

  lemma AddedHas(s: seq<Entry>, e: Entry, k: nat)
    requires |s| < PRESSED_KEYS_CAP
    ensures HasKeycode(Added(s, e), k) <==> k == e.keycode || HasKeycode(s, k)
  {
    var i := PlaceFor(s, e.key);
    var r := Added(s, e);
    assert r[i] == e;
    if HasKeycode(s, k) {
      var j :| 0 <= j < |s| && s[j].keycode == k;
      assert r[if j < i then j else j + 1] == s[j];
    }
  }

  lemma AddedOne(s: seq<Entry>, e: Entry)
    requires |s| < PRESSED_KEYS_CAP && OnePerKeycode(s) && !HasKeycode(s, e.keycode)
    ensures OnePerKeycode(Added(s, e))
  {
  }

  /** As many keys are down as there are recorded ones, at least. */
  lemma {:induction false} NoMoreThanDown(s: seq<Entry>, down: set<nat>)
    requires OnePerKeycode(s) && forall i :: 0 <= i < |s| ==> s[i].keycode in down
    ensures |s| <= |down|
  {
    if s != [] {
      var last := s[|s| - 1].keycode;
      NoMoreThanDown(s[..|s| - 1], down - {last});
    }
  }

  // ---------------------------------------------------------------------
  // The log
  // ---------------------------------------------------------------------

  lemma OneMoreSent(log: seq<Sent>, s: Sent, k: nat)
    ensures ClientHolds(log + [s], k) <==> if s.keycode == k then s.pressed else ClientHolds(log, k)
  {
    assert (log + [s])[..|log|] == log;
  }

  lemma AlternatesAppend(log: seq<Sent>, s: Sent)
    requires Alternates(log) && (s.pressed <==> !ClientHolds(log, s.keycode))
    ensures Alternates(log + [s])
  {
    forall i | 0 <= i < |log + [s]|
      ensures (log + [s])[i].pressed <==> !ClientHolds((log + [s])[..i], (log + [s])[i].keycode)
    {
      if i < |log| {
        assert (log + [s])[..i] == log[..i];
      } else {
        assert (log + [s])[..i] == log;
      }
    }
  }

  function CountSent(log: seq<Sent>, s: Sent): nat {
    if log == [] then 0 else CountSent(log[..|log| - 1], s) + if log[|log| - 1] == s then 1 else 0
  }

  /** In a log that alternates, every press but the one still held has its one release. */
  lemma {:induction false} PressesAndReleases(log: seq<Sent>, k: nat)
    requires Alternates(log)
    ensures CountSent(log, Sent(k, true)) == CountSent(log, Sent(k, false)) + if ClientHolds(log, k) then 1 else 0
  {
    if log != [] {
      var init := log[..|log| - 1];
      assert forall i :: 0 <= i < |init| ==> init[..i] == log[..i];
      PressesAndReleases(init, k);
    }
  }

  // ---------------------------------------------------------------------
  // Steps
  // ---------------------------------------------------------------------

  lemma NoModifiers(s: Shortcut, e: KeyEvent)
    requires s.lastRawModifiers == 0
    ensures ForgetModifier(s, 0) == s
  {
  }

  lemma PressIs(w: World, e: KeyEvent)
    requires w.pressedSent.lastRawModifiers == 0 && e.pressed && Forwards(w.pressedSent, e) && !Overflows(w, e)
    ensures var u := Handle(w, e);
            && u.pressedSent.entries == Added(w.pressedSent.entries, Entry(e.keycode + 8, e.keycode))
            && u.pressedSent.lastRawModifiers == 0
            && u.log == w.log + [Sent(e.keycode, true)] && u.down == w.down + {e.keycode}
  {
    NoModifiers(w.pressedSent, e);
  }

  lemma PressAgrees(w: World, e: KeyEvent)
    requires Agrees(w) && e.pressed && Forwards(w.pressedSent, e) && !Overflows(w, e)
    requires w.pressedSent.lastRawModifiers == 0
    ensures Agrees(Handle(w, e))
  {
    PressIs(w, e);
    hide Handle, Added, HasKeycode, ClientHolds;
    forall k: nat
      ensures ClientHolds(Handle(w, e).log, k) <==> HasKeycode(Handle(w, e).pressedSent.entries, k)
    {
      AddedHas(w.pressedSent.entries, Entry(e.keycode + 8, e.keycode), k);
      OneMoreSent(w.log, Sent(e.keycode, true), k);
    }
  }

  lemma ForwardedPressKeepsGood(w: World, e: KeyEvent)
    requires Good(w) && Physical(w, e) && e.pressed && Forwards(w.pressedSent, e) && !Overflows(w, e)
    ensures Good(Handle(w, e))
  {
    var entry := Entry(e.keycode + 8, e.keycode);
    PressIs(w, e);
    PressAgrees(w, e);
    hide Handle, Added, HasKeycode, ClientHolds, Alternates, OnePerKeycode, Ascending, Agrees;
    AddedOne(w.pressedSent.entries, entry);
    AddedIs(w.pressedSent.entries, entry);
    assert |Added(w.pressedSent.entries, entry)| == |multiset(Added(w.pressedSent.entries, entry))|;
    assert !ClientHolds(w.log, e.keycode) by {
      assert ClientHolds(w.log, e.keycode) <==> HasKeycode(w.pressedSent.entries, e.keycode) by {
        AgreesAt(w, e.keycode);
      }
    }
    AlternatesAppend(w.log, Sent(e.keycode, true));
    forall k: nat
      ensures HasKeycode(Added(w.pressedSent.entries, entry), k) ==> k == e.keycode || HasKeycode(w.pressedSent.entries, k)
    {
      AddedHas(w.pressedSent.entries, entry, k);
    }
  }

  lemma AgreesAt(w: World, k: nat)
    requires Agrees(w)
    ensures ClientHolds(w.log, k) <==> HasKeycode(w.pressedSent.entries, k)
  {
  }

  lemma PressKeepsGood(w: World, e: KeyEvent)
    requires Good(w) && Physical(w, e) && e.pressed && !Overflows(w, e)
    ensures Good(Handle(w, e))
  {
    if Forwards(w.pressedSent, e) {
      ForwardedPressKeepsGood(w, e);
    }
  }

  lemma ReleaseKeepsGood(w: World, e: KeyEvent)
    requires Good(w) && Physical(w, e) && !e.pressed
    ensures Good(Handle(w, e))
  {
    NoModifiers(w.pressedSent, e);
    var entries := w.pressedSent.entries;
    ErasedOne(entries, e.keycode);
    ErasedOrder(entries, e.keycode);
    if Forwards(w.pressedSent, e) {
      AlternatesAppend(w.log, Sent(e.keycode, false));
    }
    forall k: nat
      ensures HasKeycode(Erased(entries, e.keycode), k) <==> k != e.keycode && HasKeycode(entries, k)
      ensures ClientHolds(w.log + [Sent(e.keycode, false)], k) <==> k != e.keycode && ClientHolds(w.log, k)
    {
      ErasedHas(entries, e.keycode, k);
      OneMoreSent(w.log, Sent(e.keycode, false), k);
    }
  }

  /**
   * One event keeps client and record in agreement exactly when it is not a
   * press that is sent while 32 keys are recorded already.
   */
  lemma AgreementBreaks(w: World, e: KeyEvent)
    requires Good(w) && Physical(w, e)
    ensures Agrees(Handle(w, e)) <==> !Overflows(w, e)
    ensures Good(Handle(w, e)) <==> !Overflows(w, e)
  {
    if Overflows(w, e) {
      NoModifiers(w.pressedSent, e);
      OneMoreSent(w.log, Sent(e.keycode, true), e.keycode);
    } else if e.pressed {
      PressKeepsGood(w, e);
    } else {
      ReleaseKeepsGood(w, e);
    }
  }

  // ---------------------------------------------------------------------
  // Runs
  // ---------------------------------------------------------------------

  function Run(w: World, es: seq<KeyEvent>): World
    decreases |es|
  {
    if es == [] then w else Run(Handle(w, es[0]), es[1..])
  }

  /** Per key the hardware alternates, and it never holds more than 32 keys down. */
  ghost predicate Typing(w: World, es: seq<KeyEvent>)
    decreases |es|
  {
    |w.down| <= PRESSED_KEYS_CAP && (es == [] || (Physical(w, es[0]) && Typing(Handle(w, es[0]), es[1..])))
  }

  lemma FewKeysDoNotOverflow(w: World, e: KeyEvent)
    requires Good(w) && Physical(w, e) && |Handle(w, e).down| <= PRESSED_KEYS_CAP
    ensures !Overflows(w, e)
  {
    if e.pressed {
      var entries := w.pressedSent.entries;
      assert forall i :: 0 <= i < |entries| ==> HasKeycode(entries, entries[i].keycode);
      NoMoreThanDown(entries, w.down);
      assert |w.down + {e.keycode}| == |w.down| + 1;
    }
  }

  lemma {:induction false} EveryRunIsGood(w: World, es: seq<KeyEvent>)
    requires Good(w) && Typing(w, es)
    ensures Good(Run(w, es))
    decreases |es|
  {
    if es != [] {
      FewKeysDoNotOverflow(w, es[0]);
      AgreementBreaks(w, es[0]);
      EveryRunIsGood(Handle(w, es[0]), es[1..]);
    }
  }

  /**
   * With at most 32 keys down, whatever bindings and input methods take in
   * between: the client holds exactly the recorded keys, all of them are down,
   * it sees press and release by turns, and every press it sees has one release
   * once the key is up again.
   */
  lemma ForwardingIsSound(es: seq<KeyEvent>, k: nat)
    requires Typing(IDLE, es)
    ensures var w := Run(IDLE, es);
            && (ClientHolds(w.log, k) <==> HasKeycode(w.pressedSent.entries, k))
            && (ClientHolds(w.log, k) ==> k in w.down)
            && Alternates(w.log)
            && (k !in w.down ==> CountSent(w.log, Sent(k, true)) == CountSent(w.log, Sent(k, false)))
  {
    EveryRunIsGood(IDLE, es);
    PressesAndReleases(Run(IDLE, es).log, k);
  }

  // ---------------------------------------------------------------------
  // Which events the client sees
  // ---------------------------------------------------------------------

  /** A press that a binding took or a grab holds is neither sent nor recorded; any other is sent. */
  lemma FreePressesAreSent(w: World, e: KeyEvent)
    requires e.pressed
    ensures var u := Handle(w, e);
            if e.consumed || e.grabbed then u.log == w.log && u.pressedSent == w.pressedSent
            else u.log == w.log + [Sent(e.keycode, true)]
  {
  }

  /** A release is sent if and only if the client holds the key, whoever took it or grabs the keyboard by then. */
  lemma HeldKeysAreReleased(w: World, e: KeyEvent)
    requires Good(w) && !e.pressed
    ensures Handle(w, e).log == if ClientHolds(w.log, e.keycode) then w.log + [Sent(e.keycode, false)] else w.log
    ensures !ClientHolds(Handle(w, e).log, e.keycode)
  {
    NoModifiers(w.pressedSent, e);
    AgreesAt(w, e.keycode);
    OneMoreSent(w.log, Sent(e.keycode, false), e.keycode);
  }

  /**
   * With at most 32 keys down the client sees exactly the presses that no binding
   * took and no grab holds, and the releases of the keys it holds.
   */
  lemma ClientSees(es: seq<KeyEvent>, e: KeyEvent)
    requires Typing(IDLE, es)
    ensures var w := Run(IDLE, es);
            Handle(w, e).log ==
              if e.pressed && !e.consumed && !e.grabbed then w.log + [Sent(e.keycode, true)]
              else if !e.pressed && ClientHolds(w.log, e.keycode) then w.log + [Sent(e.keycode, false)]
              else w.log
  {
    EveryRunIsGood(IDLE, es);
    hide Good, Handle, Run;
    if e.pressed {
      FreePressesAreSent(Run(IDLE, es), e);
    } else {
      HeldKeysAreReleased(Run(IDLE, es), e);
    }
  }

  // ---------------------------------------------------------------------
  // One key too many
  // ---------------------------------------------------------------------

  /** The hardware presses only keys that are up, and releases only keys that are down. */
  ghost predicate PhysicalRun(w: World, es: seq<KeyEvent>)
    decreases |es|
  {
    es == [] || (Physical(w, es[0]) && PhysicalRun(Handle(w, es[0]), es[1..]))
  }

  function Press(keycode: nat): KeyEvent { KeyEvent(keycode, true, false, false) }

  function Release(keycode: nat): KeyEvent { KeyEvent(keycode, false, false, false) }

  /** The keys 0 to n - 1 go down, and none goes up. */
  function Presses(n: nat): seq<KeyEvent> {
    if n == 0 then [] else Presses(n - 1) + [Press(n - 1)]
  }

  lemma {:induction false} RunOneMore(w: World, es: seq<KeyEvent>, e: KeyEvent)
    ensures Run(w, es + [e]) == Handle(Run(w, es), e)
    ensures PhysicalRun(w, es + [e]) <==> PhysicalRun(w, es) && Physical(Run(w, es), e)
    decreases |es|
  {
    hide Handle, Physical;
    var all := es + [e];
    if es == [] {
      assert all[0] == e && all[1..] == [];
      assert Run(Handle(w, e), []) == Handle(w, e) && PhysicalRun(Handle(w, e), []);
    } else {
      assert all[0] == es[0] && all[1..] == es[1..] + [e];
      RunOneMore(Handle(w, es[0]), es[1..], e);
    }
  }

  /** Up to 32 keys, all of them are recorded. */
  lemma {:induction false} AllRecorded(n: nat)
    requires n <= PRESSED_KEYS_CAP
    ensures var w := Run(IDLE, Presses(n));
            && PhysicalRun(IDLE, Presses(n)) && Good(w)
            && |w.pressedSent.entries| == n && forall k: nat :: k in w.down <==> k < n
  {
    if n > 0 {
      AllRecorded(n - 1);
      RunOneMore(IDLE, Presses(n - 1), Press(n - 1));
      hide Good, Run, PhysicalRun, Handle;
      OneMoreRecorded(Run(IDLE, Presses(n - 1)), n - 1);
    }
  }

  lemma OneMoreRecorded(w: World, n: nat)
    requires Good(w) && |w.pressedSent.entries| == n < PRESSED_KEYS_CAP && forall k: nat :: k in w.down <==> k < n
    ensures var u := Handle(w, Press(n));
            && Physical(w, Press(n)) && Good(u)
            && |u.pressedSent.entries| == n + 1 && forall k: nat :: k in u.down <==> k < n + 1
  {
    var e := Press(n);
    PressIs(w, e);
    AddedLength(w.pressedSent.entries, Entry(e.keycode + 8, e.keycode));
    hide Good, Handle, Added;
    PressKeepsGood(w, e);
  }

  /**
   * The 33rd key that is held down is sent and not recorded; when it goes up,
   * the client is not told, and goes on holding it.
   */
  lemma KeyIsStuck()
    ensures var es, e, up := Presses(32), Press(32), Release(32);
            && PhysicalRun(IDLE, es + [e] + [up]) && Good(Run(IDLE, es)) && Overflows(Run(IDLE, es), e)
            && !Agrees(Run(IDLE, es + [e]))
            && var w := Run(IDLE, es + [e] + [up]); ClientHolds(w.log, 32) && 32 !in w.down
  {
    var es, e, up := Presses(32), Press(32), Release(32);
    AllRecorded(32);
    RunOneMore(IDLE, es, e);
    RunOneMore(IDLE, es + [e], up);
    hide Run, PhysicalRun, Presses;
    var w := Run(IDLE, es);
    AgreementBreaks(w, e);
    NotTold(w, e, up);
  }

  /** The release of a key whose press found no room is not sent. */
  lemma NotTold(w: World, e: KeyEvent, up: KeyEvent)
    requires Good(w) && Physical(w, e) && Overflows(w, e) && up == Release(e.keycode)
    ensures var later := Handle(Handle(w, e), up);
            ClientHolds(later.log, e.keycode) && e.keycode !in later.down && Physical(Handle(w, e), up)
  {
    NoModifiers(w.pressedSent, e);
    OneMoreSent(w.log, Sent(e.keycode, true), e.keycode);
    assert !HasKeycode(w.pressedSent.entries, e.keycode);
    NoModifiers(Handle(w, e).pressedSent, up);
  }

  // ---------------------------------------------------------------------
  // handle_key_event
  // ---------------------------------------------------------------------

  /** A keyboard, with what it sent to its client. */
  class Forwarder {
    const pressedSent: ShortcutState
    var log: seq<Sent>
    ghost var down: set<nat>

    ghost predicate Valid()
      reads this, pressedSent, pressedSent.pressedKeys, pressedSent.pressedKeycodes
    {
      pressedSent.Valid()
    }

    ghost function Value(): World
      requires Valid()
      reads this, pressedSent, pressedSent.pressedKeys, pressedSent.pressedKeycodes
    {
      World(pressedSent.Value(), log, down)
    }

    constructor ()
      ensures Valid() && Value() == IDLE
    {
      pressedSent := new ShortcutState();
      log, down := [], {};
    }

    method HandleKeyEvent(e: KeyEvent)
      requires Valid()
      modifies this, pressedSent, pressedSent.pressedKeys, pressedSent.pressedKeycodes
      ensures Valid() && Value() == Handle(old(Value()), e)
      ensures e.pressed ==> log == if e.consumed || e.grabbed then old(log) else old(log) + [Sent(e.keycode, true)]
    {
      hide Updated, Found, InOrder;
      down := if e.pressed then down + {e.keycode} else down - {e.keycode};
      var handled := e.consumed;
      if !e.pressed {
        var found := pressedSent.UpdateShortcutState(UpdateFor(e));
        if found {
          log := log + [Sent(e.keycode, false)];
          handled := true;
        }
      }
      if !handled && e.grabbed {
        handled := true;
      }
      if !handled && e.pressed {
        var _ := pressedSent.UpdateShortcutState(UpdateFor(e));
        log := log + [Sent(e.keycode, true)];
      }
    }
  }
}
