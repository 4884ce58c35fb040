/**
 * Which keys are held: the sorted arrays of hwd_shortcut_state in
 * src/input/keyboard.c, and the forwarding of key events to clients.
 */
module Keyboard {

  const PRESSED_KEYS_CAP: nat := 32

  /** A key id, and the code of the key that gave it. */
  datatype Entry = Entry(key: nat, keycode: nat)

  // ---------------------------------------------------------------------
  // The entries as a sorted sequence
  // ---------------------------------------------------------------------

  ghost predicate Ascending(s: seq<Entry>) {
    forall i, j :: 0 <= i < j < |s| ==> s[i].key <= s[j].key
  }

  function Erased(s: seq<Entry>, keycode: nat): seq<Entry> {
    if s == [] then []
    else Erased(s[..|s| - 1], keycode) + if s[|s| - 1].keycode == keycode then [] else [s[|s| - 1]]
  }

  predicate HasKeycode(s: seq<Entry>, keycode: nat) {
    exists i :: 0 <= i < |s| && s[i].keycode == keycode
  }

  /** Before the first entry whose key is not smaller. */
  function PlaceFor(s: seq<Entry>, key: nat): (i: nat)
    ensures i <= |s| && (i < |s| ==> s[i].key >= key)
    ensures forall j :: 0 <= j < i ==> s[j].key < key
  {
    if s == [] || s[0].key >= key then 0 else 1 + PlaceFor(s[1..], key)
  }

  /** A full list stays as it is. */
  function Added(s: seq<Entry>, e: Entry): seq<Entry> {
    if |s| >= PRESSED_KEYS_CAP then s else s[..PlaceFor(s, e.key)] + [e] + s[PlaceFor(s, e.key)..]
  }

  // ---------------------------------------------------------------------
  // The entries as a multiset
  // ---------------------------------------------------------------------

  /** The bag without the entries of a keycode. */
  ghost predicate Without(bag: multiset<Entry>, keycode: nat, rest: multiset<Entry>) {
    forall e: Entry :: rest[e] == if e.keycode == keycode then 0 else bag[e]
  }

  lemma {:induction false} ErasedBag(s: seq<Entry>, keycode: nat)
    ensures Without(multiset(s), keycode, multiset(Erased(s, keycode)))
  {
    if s != [] {
      var init, last := s[..|s| - 1], s[|s| - 1];
      ErasedBag(init, keycode);
      assert s == init + [last];
    }
  }

  lemma {:induction false} ErasedOrder(s: seq<Entry>, keycode: nat)
    requires Ascending(s)
    ensures Ascending(Erased(s, keycode)) && |Erased(s, keycode)| <= |s|
    ensures forall e :: e in Erased(s, keycode) ==> e in s
  {
    if s != [] {
      var init, last := s[..|s| - 1], s[|s| - 1];
      ErasedOrder(init, keycode);
      var rest := Erased(init, keycode);
      forall i | 0 <= i < |rest|
        ensures rest[i].key <= last.key
      {
        assert rest[i] in init;
      }
    }
  }

  /** Erasing leaves everything alone exactly when nothing has the keycode. */
  lemma {:induction false} ErasedNothing(s: seq<Entry>, keycode: nat)
    ensures Erased(s, keycode) == s <==> !HasKeycode(s, keycode)
    ensures |Erased(s, keycode)| <= |s|
  {
    if s != [] {
      var init, last := s[..|s| - 1], s[|s| - 1];
      ErasedNothing(init, keycode);
      assert s == init + [last];
      assert HasKeycode(s, keycode) <==> HasKeycode(init, keycode) || last.keycode == keycode;
    }
  }

  lemma AddedBag(s: seq<Entry>, e: Entry)
    requires |s| < PRESSED_KEYS_CAP
    ensures multiset(Added(s, e)) == multiset(s) + multiset{e}
  {
    var i := PlaceFor(s, e.key);
    var a, b := s[..i], s[i..];
    assert s == a + b;
    assert multiset(s) == multiset(a) + multiset(b);
    assert multiset(a + [e] + b) == multiset(a) + multiset{e} + multiset(b);
  }

  lemma AddedOrder(s: seq<Entry>, e: Entry)
    requires Ascending(s) && |s| < PRESSED_KEYS_CAP
    ensures Ascending(Added(s, e)) && |Added(s, e)| == |s| + 1
  {
  }

  lemma AddedIs(s: seq<Entry>, e: Entry)
    requires Ascending(s) && |s| < PRESSED_KEYS_CAP
    ensures multiset(Added(s, e)) == multiset(s) + multiset{e} && Ascending(Added(s, e))
  {
    AddedBag(s, e);
    AddedOrder(s, e);
  }

  lemma AddedLength(s: seq<Entry>, e: Entry)
    requires |s| < PRESSED_KEYS_CAP
    ensures |Added(s, e)| == |s| + 1
  {
  }

  // ---------------------------------------------------------------------
  // update_shortcut_state
  // ---------------------------------------------------------------------

  datatype Shortcut = Shortcut(entries: seq<Entry>, currentKey: nat, lastKeycode: nat, lastRawModifiers: nat)

  const RELEASED: Shortcut := Shortcut([], 0, 0, 0)

  datatype Update = Update(keycode: nat, pressed: bool, key: nat, rawModifiers: nat)

  function Erase(s: Shortcut, keycode: nat): Shortcut {
    s.(entries := Erased(s.entries, keycode), currentKey := 0)
  }

  function Add(s: Shortcut, e: Entry): Shortcut {
    if |s.entries| >= PRESSED_KEYS_CAP then s else s.(entries := Added(s.entries, e), currentKey := e.key)
  }

  /** Forgets the last pressed key when it turns out to have been a modifier. */
  function ForgetModifier(s: Shortcut, rawModifiers: nat): Shortcut {
    var t := s.(lastRawModifiers := rawModifiers);
    if rawModifiers != s.lastRawModifiers && s.lastKeycode != 0 then Erase(t, s.lastKeycode) else t
  }

  function Updated(s: Shortcut, u: Update): Shortcut {
    var t := ForgetModifier(s, u.rawModifiers);
    if u.pressed then Add(t, Entry(u.key, u.keycode)).(lastKeycode := u.keycode) else Erase(t, u.keycode)
  }

  /** Whether update_shortcut_state returns true: a release that found its key. */
  function Found(s: Shortcut, u: Update): bool {
    !u.pressed && HasKeycode(ForgetModifier(s, u.rawModifiers).entries, u.keycode)
  }

  function RunUpdates(s: Shortcut, us: seq<Update>): Shortcut
    decreases |us|
  {
    if us == [] then s else RunUpdates(Updated(s, us[0]), us[1..])
  }

  // ---------------------------------------------------------------------
  // The same on bags
  // ---------------------------------------------------------------------

  /** The held keys as a bag: what a key event does to it, saying nothing of order. */
  datatype Bag = Bag(held: multiset<Entry>, lastKeycode: nat, lastRawModifiers: nat)

  ghost predicate BagForgets(a: Bag, u: Update, kept: multiset<Entry>) {
    if u.rawModifiers != a.lastRawModifiers && a.lastKeycode != 0 then Without(a.held, a.lastKeycode, kept)
    else kept == a.held
  }

  ghost predicate BagTakes(kept: multiset<Entry>, u: Update, held: multiset<Entry>) {
    if !u.pressed then Without(kept, u.keycode, held)
    else held == if |kept| >= PRESSED_KEYS_CAP then kept else kept + multiset{Entry(u.key, u.keycode)}
  }

  ghost predicate BagStep(a: Bag, u: Update, b: Bag) {
    && b.lastRawModifiers == u.rawModifiers
    && b.lastKeycode == (if u.pressed then u.keycode else a.lastKeycode)
    && exists kept :: BagForgets(a, u, kept) && BagTakes(kept, u, b.held)
  }

  function AsBag(s: Shortcut): Bag { Bag(multiset(s.entries), s.lastKeycode, s.lastRawModifiers) }

  ghost predicate InOrder(s: Shortcut) { Ascending(s.entries) && |s.entries| <= PRESSED_KEYS_CAP }

  lemma ForgetModifierIs(s: Shortcut, u: Update)
    requires InOrder(s)
    ensures InOrder(ForgetModifier(s, u.rawModifiers))
    ensures BagForgets(AsBag(s), u, multiset(ForgetModifier(s, u.rawModifiers).entries))
  {
    if u.rawModifiers != s.lastRawModifiers && s.lastKeycode != 0 {
      ErasedOrder(s.entries, s.lastKeycode);
      ErasedBag(s.entries, s.lastKeycode);
    }
  }

  /** One update keeps the order and the bound, and does to the bag what it should. */
  lemma UpdatedIs(s: Shortcut, u: Update)
    requires InOrder(s)
    ensures InOrder(Updated(s, u)) && BagStep(AsBag(s), u, AsBag(Updated(s, u)))
  {
    hide BagForgets, Erased;
    var t := ForgetModifier(s, u.rawModifiers);
    ForgetModifierIs(s, u);
    if !u.pressed {
      ErasedOrder(t.entries, u.keycode);
      ErasedBag(t.entries, u.keycode);
    } else if |t.entries| < PRESSED_KEYS_CAP {
      AddedIs(t.entries, Entry(u.key, u.keycode));
    }
    assert BagTakes(multiset(t.entries), u, multiset(Updated(s, u).entries));
  }

  /**
   * The current key is the one just pressed, if there was room for it, and none
   * after a release or once the last key turned out to be a modifier. A release
   * reports that it found its key if and only if the key was still held.
   */
  lemma UpdateReports(s: Shortcut, u: Update, kept: multiset<Entry>)
    requires InOrder(s) && BagForgets(AsBag(s), u, kept)
    ensures var key := Updated(s, u).currentKey;
            && (!u.pressed ==> key == 0)
            && (u.pressed && |kept| < PRESSED_KEYS_CAP ==> key == u.key)
            && (u.pressed && |kept| >= PRESSED_KEYS_CAP ==>
                  key == if u.rawModifiers != s.lastRawModifiers && s.lastKeycode != 0 then 0 else s.currentKey)
    ensures Found(s, u) <==> !u.pressed && exists e :: e in kept && e.keycode == u.keycode
  {
    var t := ForgetModifier(s, u.rawModifiers);
    ForgetModifierIs(s, u);
    SameRest(multiset(s.entries), s.lastKeycode, kept, multiset(t.entries));
    assert kept == multiset(t.entries);
    hide Erased, Added, BagForgets;
    if HasKeycode(t.entries, u.keycode) {
      var i :| 0 <= i < |t.entries| && t.entries[i].keycode == u.keycode;
      assert t.entries[i] in kept;
    }
    if e :| e in kept && e.keycode == u.keycode {
      assert e in t.entries;
    }
  }

  ghost predicate BagRun(bags: seq<Bag>, us: seq<Update>) {
    |bags| == |us| + 1 && forall i :: 0 <= i < |us| ==> BagStep(bags[i], us[i], bags[i + 1])
  }

  /** After every run the entries are the sorted form of what the bag model holds, at most 32 of them. */
  lemma {:induction false} EveryRunIsSorted(s: Shortcut, us: seq<Update>) returns (bags: seq<Bag>)
    requires InOrder(s)
    ensures InOrder(RunUpdates(s, us))
    ensures BagRun(bags, us) && bags[0] == AsBag(s) && bags[|us|] == AsBag(RunUpdates(s, us))
    decreases |us|
  {
    if us == [] {
      bags := [AsBag(s)];
    } else {
      hide BagStep, Updated, AsBag, InOrder;
      UpdatedIs(s, us[0]);
      var rest := EveryRunIsSorted(Updated(s, us[0]), us[1..]);
      bags := [AsBag(s)] + rest;
      forall i | 0 <= i < |us|
        ensures BagStep(bags[i], us[i], bags[i + 1])
      {
        assert bags[i + 1] == rest[i];
        if i > 0 {
          assert BagStep(rest[i - 1], us[1..][i - 1], rest[i]);
        }
      }
    }
  }

  /** The bag model is deterministic, so it says all there is to say about which keys are held. */
  lemma BagStepIsDeterministic(a: Bag, u: Update, b: Bag, c: Bag)
    requires BagStep(a, u, b) && BagStep(a, u, c)
    ensures b == c
  {
    var k :| BagForgets(a, u, k) && BagTakes(k, u, b.held);
    var l :| BagForgets(a, u, l) && BagTakes(l, u, c.held);
    SameRest(a.held, a.lastKeycode, k, l);
    assert k == l;
    SameRest(k, u.keycode, b.held, c.held);
  }

  lemma SameRest(bag: multiset<Entry>, keycode: nat, k: multiset<Entry>, l: multiset<Entry>)
    ensures Without(bag, keycode, k) && Without(bag, keycode, l) ==> k == l
  {
    if Without(bag, keycode, k) && Without(bag, keycode, l) {
      assert forall e :: k[e] == l[e];
    }
  }

  // ---------------------------------------------------------------------
  // The arrays
  // ---------------------------------------------------------------------

  class ShortcutState {
    const pressedKeys: array<nat>
    const pressedKeycodes: array<nat>
    var npressed: nat
    var currentKey: nat
    var lastKeycode: nat
    var lastRawModifiers: nat

    constructor ()
      ensures Valid() && Value() == RELEASED && fresh(pressedKeys) && fresh(pressedKeycodes)
    {
      pressedKeys := new nat[PRESSED_KEYS_CAP](_ => 0);
      pressedKeycodes := new nat[PRESSED_KEYS_CAP](_ => 0);
      npressed, currentKey, lastKeycode, lastRawModifiers := 0, 0, 0, 0;
    }

    ghost predicate Arrays() {
      pressedKeys.Length == pressedKeycodes.Length == PRESSED_KEYS_CAP && pressedKeys != pressedKeycodes
    }

    ghost predicate Shape()
      reads `npressed
    {
      Arrays() && npressed <= PRESSED_KEYS_CAP
    }

    /** The entries from one index to another. */
    ghost function Slice(i: nat, j: nat): (s: seq<Entry>)
      requires Arrays() && i <= j <= PRESSED_KEYS_CAP
      reads pressedKeys, pressedKeycodes
      ensures |s| == j - i
      ensures forall k :: 0 <= k < j - i ==> s[k] == Entry(pressedKeys[i + k], pressedKeycodes[i + k])
    {
      seq(j - i, k requires 0 <= k < j - i && Arrays() reads pressedKeys, pressedKeycodes =>
        Entry(pressedKeys[i + k], pressedKeycodes[i + k]))
    }

    ghost function Value(): Shortcut
      requires Shape()
      reads this, pressedKeys, pressedKeycodes
    {
      Shortcut(Slice(0, npressed), currentKey, lastKeycode, lastRawModifiers)
    }

    ghost predicate ZeroFrom(i: nat)
      requires Arrays()
      reads pressedKeys, pressedKeycodes
    {
      forall k :: i <= k < PRESSED_KEYS_CAP ==> pressedKeys[k] == 0 && pressedKeycodes[k] == 0
    }

    /** At most 32 keys, ascending, and nothing but zeros behind them. */
    ghost predicate Valid()
      reads this, pressedKeys, pressedKeycodes
    {
      Shape() && InOrder(Value()) && ZeroFrom(npressed)
    }

    /** The first loop of state_erase_key: packs what stays to the front. */
    method Pack(keycode: nat) returns (j: nat, found: bool)
      requires Shape()
      modifies pressedKeys, pressedKeycodes
      ensures j <= npressed && Slice(0, j) == Erased(old(Slice(0, npressed)), keycode)
      ensures forall k :: npressed <= k < PRESSED_KEYS_CAP ==>
                pressedKeys[k] == old(pressedKeys[k]) && pressedKeycodes[k] == old(pressedKeycodes[k])
      ensures found == HasKeycode(old(Slice(0, npressed)), keycode)
    {
      ghost var was := Slice(0, PRESSED_KEYS_CAP);
      found := false;
      j := 0;
      for i := 0 to npressed
        invariant j <= i
        invariant Slice(0, j) == Erased(was[..i], keycode)
        invariant forall k :: i <= k < PRESSED_KEYS_CAP ==>
                    pressedKeys[k] == was[k].key && pressedKeycodes[k] == was[k].keycode
        invariant found == HasKeycode(was[..i], keycode)
      {
        assert was[..i + 1][..i] == was[..i];
        if i > j {
          pressedKeys[j] := pressedKeys[i];
          pressedKeycodes[j] := pressedKeycodes[i];
        }
        if pressedKeycodes[i] != keycode {
          j := j + 1;
        } else {
          found := true;
        }
      }
      assert was[..npressed] == old(Slice(0, npressed));
    }

    method EraseKey(keycode: nat) returns (found: bool)
      requires Valid()
      modifies `npressed, `currentKey, pressedKeys, pressedKeycodes
      ensures Valid() && Value() == Erase(old(Value()), keycode)
      ensures found == HasKeycode(old(Value()).entries, keycode)
    {
      ghost var was := Slice(0, npressed);
      ErasedOrder(was, keycode);
      var j;
      j, found := Pack(keycode);
      ghost var end := npressed;
      while npressed > j
        invariant Shape() && j <= npressed
        invariant Slice(0, j) == Erased(was, keycode) && ZeroFrom(npressed)
      {
        npressed := npressed - 1;
        pressedKeys[npressed] := 0;
        pressedKeycodes[npressed] := 0;
      }
      currentKey := 0;
    }

    method AddKey(keycode: nat, key: nat)
      requires Valid()
      modifies `npressed, `currentKey, pressedKeys, pressedKeycodes
      ensures Valid() && Value() == Add(old(Value()), Entry(key, keycode))
    {
      if npressed >= PRESSED_KEYS_CAP {
        return;
      }
      hide Ascending, PlaceFor, Added;
      AddedIs(Value().entries, Entry(key, keycode));
      AddedLength(Value().entries, Entry(key, keycode));
      InsertSorted(keycode, key);
      npressed := npressed + 1;
      currentKey := key;
    }

    /** Puts the entry in its place in the arrays; it is not counted yet. */
    method InsertSorted(keycode: nat, key: nat)
      requires Shape() && npressed < PRESSED_KEYS_CAP && ZeroFrom(npressed)
      modifies pressedKeys, pressedKeycodes
      ensures ZeroFrom(npressed + 1)
      ensures Slice(0, npressed + 1) == Added(old(Slice(0, npressed)), Entry(key, keycode))
    {
      hide PlaceFor;
      var i: nat := FindPlace(key);
      InsertEntry(i, key, keycode);
    }

    method InsertEntry(i: nat, key: nat, keycode: nat)
      requires Shape() && i <= npressed < PRESSED_KEYS_CAP && ZeroFrom(npressed)
      modifies pressedKeys, pressedKeycodes
      ensures ZeroFrom(npressed + 1)
      ensures var was := old(Slice(0, npressed));
              Slice(0, npressed + 1) == was[..i] + [Entry(key, keycode)] + was[i..]
    {
      ghost var was := Slice(0, npressed);
      Shift(i);
      SetAt(i, key, keycode);
      assert was[..i] == old(Slice(0, i)) && was[i..] == old(Slice(i, npressed));
    }

    /** Writes one entry. */
    method SetAt(i: nat, key: nat, keycode: nat)
      requires Arrays() && i < PRESSED_KEYS_CAP
      modifies pressedKeys, pressedKeycodes
      ensures forall j :: i < j <= PRESSED_KEYS_CAP ==>
                Slice(0, j) == old(Slice(0, i)) + [Entry(key, keycode)] + old(Slice(i + 1, j))
      ensures forall j :: i < j && old(ZeroFrom(j)) ==> ZeroFrom(j)
    {
      pressedKeys[i] := key;
      pressedKeycodes[i] := keycode;
    }

    method FindPlace(key: nat) returns (i: nat)
      requires Shape()
      ensures i == PlaceFor(Slice(0, npressed), key)
    {
      i := 0;
      ghost var s := Slice(0, npressed);
      while i < npressed && pressedKeys[i] < key
        invariant i <= npressed && PlaceFor(s, key) == i + PlaceFor(s[i..], key)
      {
        assert s[i..][1..] == s[i + 1..];
        i := i + 1;
      }
    }

    /** Makes room at an index. */
    method Shift(i: nat)
      requires Shape() && i <= npressed < PRESSED_KEYS_CAP
      modifies pressedKeys, pressedKeycodes
      ensures Slice(0, i) == old(Slice(0, i)) && Slice(i + 1, npressed + 1) == old(Slice(i, npressed))
      ensures forall k :: npressed < k < PRESSED_KEYS_CAP ==>
                pressedKeys[k] == old(pressedKeys[k]) && pressedKeycodes[k] == old(pressedKeycodes[k])
    {
      ghost var was := Slice(0, PRESSED_KEYS_CAP);
      var j := npressed;
      while j > i
        invariant i <= j <= npressed
        invariant forall k :: (0 <= k < j || npressed < k < PRESSED_KEYS_CAP) ==>
                    pressedKeys[k] == was[k].key && pressedKeycodes[k] == was[k].keycode
        invariant forall k :: j <= k < npressed ==>
                    pressedKeys[k + 1] == was[k].key && pressedKeycodes[k + 1] == was[k].keycode
      {
        pressedKeys[j] := pressedKeys[j - 1];
        pressedKeycodes[j] := pressedKeycodes[j - 1];
        j := j - 1;
      }
    }

    /** A change of the modifiers erases the key that came with it. */
    method EraseModifier(rawModifiers: nat)
      requires Valid()
      modifies this, pressedKeys, pressedKeycodes
      ensures Valid() && Value() == ForgetModifier(old(Value()), rawModifiers)
    {
      hide InOrder, Erased, HasKeycode;
      var lastKeyWasAModifier := rawModifiers != lastRawModifiers;
      NoteModifiers(rawModifiers);
      if lastKeyWasAModifier && lastKeycode != 0 {
        var _ := EraseKey(lastKeycode);
      }
    }

    method NoteModifiers(rawModifiers: nat)
      requires Valid()
      modifies `lastRawModifiers
      ensures Valid() && Value() == old(Value()).(lastRawModifiers := rawModifiers)
    {
      lastRawModifiers := rawModifiers;
    }

    method NoteKeycode(keycode: nat)
      requires Valid()
      modifies `lastKeycode
      ensures Valid() && Value() == old(Value()).(lastKeycode := keycode)
    {
      lastKeycode := keycode;
    }

    method UpdateShortcutState(u: Update) returns (found: bool)
      requires Valid()
      modifies this, pressedKeys, pressedKeycodes
      ensures Valid() && Value() == Updated(old(Value()), u) && found == Found(old(Value()), u)
    {
      hide Valid, Add, Erase, ForgetModifier, HasKeycode;
      EraseModifier(u.rawModifiers);
      if u.pressed {
        AddKey(u.keycode, u.key);
        NoteKeycode(u.keycode);
        found := false;
      } else {
        found := EraseKey(u.keycode);
      }
    }
  }
}
