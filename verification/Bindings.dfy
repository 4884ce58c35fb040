/**
 * Which key binding a key event triggers: get_active_binding of
 * src/input/keyboard.c, and the three searches that handle_key_event makes.
 */
module Bindings {
  import opened Seqs

  /** A configured binding; a group of None is one for any layout. */
  datatype Binding = Binding(
    modifiers: nat, release: bool, locked: bool, inhibited: bool, group: Option<nat>, input: string, keys: seq<nat>)

  /** What all searches for one event ask for. */
  datatype Query =
    Query(release: bool, locked: bool, inhibited: bool, input: string, exactInput: bool, group: nat)

  /** What one search goes by: the held keys, the modifiers and the list. */
  datatype Search = Search(pressedKeys: seq<nat>, currentKey: nat, modifiers: nat, bindings: seq<Binding>)

  /** All held keys in order; failing that, a single-key binding for the newly pressed key. */
  predicate Matches(s: Search, b: Binding) {
    if |s.pressedKeys| == |b.keys| then b.keys == s.pressedKeys else |b.keys| == 1 && b.keys[0] == s.currentKey
  }

  predicate Eligible(q: Query, s: Search, b: Binding) {
    && b.modifiers == s.modifiers && b.release == q.release
    && (q.locked ==> b.locked) && (q.inhibited ==> b.inhibited)
    && (b.group.None? || b.group == Some(q.group))
    && (b.input == q.input || (b.input == "*" && !q.exactInput))
    && Matches(s, b)
  }

  /** The chain of preferences: whether the current binding is kept when another turns up. */
  predicate Keeps(q: Query, current: Binding, b: Binding) {
    var currentInput, bindingInput := current.input == q.input, b.input == q.input;
    || current == b
    || (currentInput == bindingInput && current.locked == b.locked && current.inhibited == b.inhibited
        && current.group.Some? == b.group.Some?)
    || (currentInput && !bindingInput)
    || (currentInput == bindingInput && current.group == Some(q.group))
    || (currentInput == bindingInput && current.group.Some? == b.group.Some? && current.locked == q.locked)
    || (currentInput == bindingInput && current.group.Some? == b.group.Some? && current.locked == b.locked
        && current.inhibited == q.inhibited)
  }

  /** The search stops here: the flags are compared as bits, so neither flag may be set. */
  predicate Perfect(q: Query, b: Binding) {
    b.input == q.input && !b.locked && !q.locked && !b.inhibited && !q.inhibited && b.group == Some(q.group)
  }

  /** get_active_binding from index i on. */
  function Found(q: Query, s: Search, i: nat, current: Option<Binding>): Option<Binding>
    requires i <= |s.bindings|
    decreases |s.bindings| - i
  {
    if i == |s.bindings| then current
    else
      var b := s.bindings[i];
      if !Eligible(q, s, b) || (current.Some? && Keeps(q, current.value, b)) then Found(q, s, i + 1, current)
      else if Perfect(q, b) then Some(b)
      else Found(q, s, i + 1, Some(b))
  }

  /** The searches one after the other, each going on from what the one before found. */
  function AllFound(q: Query, searches: seq<Search>): Option<Binding> {
    if searches == [] then None
    else Found(q, searches[|searches| - 1], 0, AllFound(q, searches[..|searches| - 1]))
  }

  lemma OneMoreSearch(q: Query, searches: seq<Search>, s: Search)
    ensures AllFound(q, searches + [s]) == Found(q, s, 0, AllFound(q, searches))
  {
    assert (searches + [s])[..|searches|] == searches;
  }

  // ---------------------------------------------------------------------
  // What is chosen, from all candidates at once
  // ---------------------------------------------------------------------

  /** The eligible bindings of a search up to index i, in order. */
  function CandidatesUpTo(q: Query, s: Search, i: nat): seq<Binding>
    requires i <= |s.bindings|
  {
    if i == 0 then []
    else CandidatesUpTo(q, s, i - 1) + if Eligible(q, s, s.bindings[i - 1]) then [s.bindings[i - 1]] else []
  }

  /** The eligible bindings of all searches, in the order in which they are looked at. */
  function Candidates(q: Query, searches: seq<Search>): seq<Binding> {
    if searches == [] then []
    else
      var last := searches[|searches| - 1];
      Candidates(q, searches[..|searches| - 1]) + CandidatesUpTo(q, last, |last.bindings|)
  }

  /** First the exact device, then a binding for the active layout. */
  function Rank(q: Query, b: Binding): nat {
    (if b.input == q.input then 2 else 0) + if b.group.Some? then 1 else 0
  }

  function MaxRank(q: Query, bs: seq<Binding>): nat {
    if bs == [] then 0
    else
      var before, r := MaxRank(q, bs[..|bs| - 1]), Rank(q, bs[|bs| - 1]);
      if r > before then r else before
  }

  function OfRank(q: Query, bs: seq<Binding>, rank: nat): seq<Binding> {
    if bs == [] then []
    else OfRank(q, bs[..|bs| - 1], rank) + if Rank(q, bs[|bs| - 1]) == rank then [bs[|bs| - 1]] else []
  }

  /** The candidates that none outranks, in order. */
  function Top(q: Query, bs: seq<Binding>): seq<Binding> { OfRank(q, bs, MaxRank(q, bs)) }

  /** The first binding with the lock state, or with the inhibition state, that is asked for. */
  function FirstLocked(q: Query, bs: seq<Binding>): Option<Binding> {
    if bs == [] then None
    else
      var before := FirstLocked(q, bs[..|bs| - 1]);
      if before.None? && bs[|bs| - 1].locked == q.locked then Some(bs[|bs| - 1]) else before
  }

  function FirstInhibited(q: Query, bs: seq<Binding>): Option<Binding> {
    if bs == [] then None
    else
      var before := FirstInhibited(q, bs[..|bs| - 1]);
      if before.None? && bs[|bs| - 1].inhibited == q.inhibited then Some(bs[|bs| - 1]) else before
  }

  /**
   * Among bindings of one rank: simply the first one, if they are for the active
   * layout; and if they are for any, the first with the lock state, or else with
   * the inhibition state, that is asked for.
   */
  function Pick(q: Query, top: seq<Binding>): Binding
    requires top != []
  {
    var locked, inhibited := FirstLocked(q, top), FirstInhibited(q, top);
    if top[0].group.Some? then top[0]
    else if locked.Some? then locked.value
    else if inhibited.Some? then inhibited.value
    else top[0]
  }

  function Choice(q: Query, bs: seq<Binding>): Option<Binding> {
    if Top(q, bs) == [] then None else Some(Pick(q, Top(q, bs)))
  }

  // ---------------------------------------------------------------------
  // The loops choose just that
  // ---------------------------------------------------------------------

  /** A binding that is for a layout is for the active one. */
  ghost predicate ForLayout(q: Query, bs: seq<Binding>) {
    forall b :: b in bs ==> b.group.None? || b.group == Some(q.group)
  }

  ghost predicate AllOfRank(q: Query, bs: seq<Binding>, rank: nat) {
    forall b :: b in bs ==> Rank(q, b) == rank
  }

  lemma {:induction false} OfRankIs(q: Query, bs: seq<Binding>, rank: nat)
    ensures AllOfRank(q, OfRank(q, bs, rank), rank)
    ensures forall b :: b in OfRank(q, bs, rank) <==> b in bs && Rank(q, b) == rank
    ensures forall b :: b in bs ==> Rank(q, b) <= MaxRank(q, bs)
    ensures rank > MaxRank(q, bs) ==> OfRank(q, bs, rank) == []
    ensures bs != [] ==> OfRank(q, bs, MaxRank(q, bs)) != []
  {
    if bs != [] {
      var init, last := bs[..|bs| - 1], bs[|bs| - 1];
      OfRankIs(q, init, rank);
      OfRankIs(q, init, MaxRank(q, bs));
      assert forall b :: b in bs <==> b in init || b == last;
    }
  }

  lemma {:induction false} FirstsAre(q: Query, bs: seq<Binding>)
    ensures FirstLocked(q, bs).Some? ==> FirstLocked(q, bs).value in bs && FirstLocked(q, bs).value.locked == q.locked
    ensures FirstLocked(q, bs).None? ==> forall b :: b in bs ==> b.locked != q.locked
    ensures FirstInhibited(q, bs).Some? ==>
              FirstInhibited(q, bs).value in bs && FirstInhibited(q, bs).value.inhibited == q.inhibited
    ensures FirstInhibited(q, bs).None? ==> forall b :: b in bs ==> b.inhibited != q.inhibited
  {
    if bs != [] {
      FirstsAre(q, bs[..|bs| - 1]);
      assert forall b :: b in bs <==> b in bs[..|bs| - 1] || b == bs[|bs| - 1];
    }
  }

  /** One more binding of the same rank. */
  lemma PickOneMore(q: Query, top: seq<Binding>, b: Binding, rank: nat)
    requires top != [] && AllOfRank(q, top + [b], rank) && ForLayout(q, top + [b])
    ensures Pick(q, top + [b]) == if Keeps(q, Pick(q, top), b) then Pick(q, top) else b
    ensures Pick(q, top) in top
  {
    var all := top + [b];
    assert all[..|all| - 1] == top && all[|all| - 1] == b;
    FirstsAre(q, top);
    assert top[0] in all && Pick(q, top) in all && b in all;
  }

  lemma TopOneMore(q: Query, bs: seq<Binding>, b: Binding)
    ensures var r, max := Rank(q, b), MaxRank(q, bs);
            Top(q, bs + [b]) == if bs == [] || r > max then [b] else if r == max then Top(q, bs) + [b] else Top(q, bs)
  {
    var all := bs + [b];
    assert all[..|all| - 1] == bs && all[|all| - 1] == b;
    OfRankIs(q, bs, Rank(q, b));
  }

  /** The step of the loop: the current binding is kept or gives way. */
  lemma ChoiceOneMore(q: Query, bs: seq<Binding>, b: Binding)
    requires ForLayout(q, bs + [b])
    ensures Choice(q, bs + [b])
            == if Choice(q, bs).Some? && Keeps(q, Choice(q, bs).value, b) then Choice(q, bs) else Some(b)
  {
    var max := MaxRank(q, bs);
    TopOneMore(q, bs, b);
    OfRankIs(q, bs, max);
    if bs != [] {
      var top := Top(q, bs);
      FirstsAre(q, top);
      assert Pick(q, top) in top && Pick(q, top) in bs + [b] && b in bs + [b];
      KeepsByRank(q, Pick(q, top), b);
      hide Keeps, Pick, Rank;
      if Rank(q, b) == max {
        assert forall c :: c in top + [b] ==> c in bs + [b];
        PickOneMore(q, top, b, max);
      }
    }
    PickOnly(q, b);
  }

  lemma PickOnly(q: Query, b: Binding)
    ensures Pick(q, [b]) == b
  {
    FirstsAre(q, [b]);
  }

  lemma KeepsByRank(q: Query, current: Binding, b: Binding)
    requires ForLayout(q, [current, b])
    ensures Rank(q, current) > Rank(q, b) ==> Keeps(q, current, b)
    ensures Rank(q, current) < Rank(q, b) ==> !Keeps(q, current, b)
  {
    assert current in [current, b] && b in [current, b];
  }

  /** A binding that names the device and the active layout is kept from then on. */
  lemma {:induction false} ExactStays(q: Query, bs: seq<Binding>, more: seq<Binding>, b: Binding)
    requires ForLayout(q, bs + more) && Choice(q, bs) == Some(b) && b.input == q.input && b.group == Some(q.group)
    ensures Choice(q, bs + more) == Some(b)
  {
    if more == [] {
      assert bs + more == bs;
    } else {
      var init, last := more[..|more| - 1], more[|more| - 1];
      assert bs + more == (bs + init) + [last];
      assert forall c :: c in bs + init ==> c in bs + more;
      ExactStays(q, bs, init, b);
      ChoiceOneMore(q, bs + init, last);
    }
  }

  /** The eligible bindings of a search from index i on. */
  function CandidatesFrom(q: Query, s: Search, i: nat): seq<Binding>
    requires i <= |s.bindings|
    decreases |s.bindings| - i
  {
    if i == |s.bindings| then []
    else (if Eligible(q, s, s.bindings[i]) then [s.bindings[i]] else []) + CandidatesFrom(q, s, i + 1)
  }

  lemma {:induction false} UpToAndFrom(q: Query, s: Search, i: nat)
    requires i <= |s.bindings|
    ensures CandidatesUpTo(q, s, i) + CandidatesFrom(q, s, i) == CandidatesUpTo(q, s, |s.bindings|)
    decreases |s.bindings| - i
  {
    hide Eligible;
    if i == |s.bindings| {
      assert CandidatesUpTo(q, s, i) + [] == CandidatesUpTo(q, s, i);
    } else {
      UpToAndFrom(q, s, i + 1);
      var here := if Eligible(q, s, s.bindings[i]) then [s.bindings[i]] else [];
      assert CandidatesUpTo(q, s, i) + (here + CandidatesFrom(q, s, i + 1))
             == (CandidatesUpTo(q, s, i) + here) + CandidatesFrom(q, s, i + 1);
    }
  }

  lemma {:induction false} FromForLayout(q: Query, s: Search, i: nat)
    requires i <= |s.bindings|
    ensures ForLayout(q, CandidatesFrom(q, s, i))
    ensures forall b :: b in CandidatesFrom(q, s, i) <==> b in s.bindings[i..] && Eligible(q, s, b)
    decreases |s.bindings| - i
  {
    if i < |s.bindings| {
      FromForLayout(q, s, i + 1);
      assert s.bindings[i..] == [s.bindings[i]] + s.bindings[i + 1..];
    }
  }

  lemma ForLayoutTogether(q: Query, bs: seq<Binding>, more: seq<Binding>)
    ensures ForLayout(q, bs + more) <==> ForLayout(q, bs) && ForLayout(q, more)
  {
    assert forall b :: b in bs + more <==> b in bs || b in more;
  }

  lemma {:induction false} FoundIs(q: Query, s: Search, i: nat, seen: seq<Binding>)
    requires i <= |s.bindings| && ForLayout(q, seen)
    ensures Found(q, s, i, Choice(q, seen)) == Choice(q, seen + CandidatesFrom(q, s, i))
    decreases |s.bindings| - i
  {
    hide Eligible, Keeps, Choice, ForLayout;
    if i == |s.bindings| {
      assert seen + CandidatesFrom(q, s, i) == seen;
    } else {
      var b, rest := s.bindings[i], CandidatesFrom(q, s, i + 1);
      FromForLayout(q, s, i);
      FromForLayout(q, s, i + 1);
      if !Eligible(q, s, b) {
        assert seen + ([] + rest) == seen + rest;
        FoundIs(q, s, i + 1, seen);
      } else {
        assert seen + ([b] + rest) == (seen + [b]) + rest;
        ForLayoutTogether(q, [b], rest);
        ForLayoutTogether(q, seen, [b]);
        ForLayoutTogether(q, seen + [b], rest);
        ChoiceOneMore(q, seen, b);
        FoundIs(q, s, i + 1, seen + [b]);
        if Choice(q, seen + [b]) == Some(b) && Perfect(q, b) {
          ExactStays(q, seen + [b], rest, b);
        }
      }
    }
  }

  /** The searches, one after the other, choose as if from all candidates at once. */
  lemma {:induction false} AllFoundIsChoice(q: Query, searches: seq<Search>)
    ensures AllFound(q, searches) == Choice(q, Candidates(q, searches))
    ensures ForLayout(q, Candidates(q, searches))
  {
    hide Choice, Found;
    if searches == [] {
      ChoiceOfNone(q);
    } else {
      var init, last := searches[..|searches| - 1], searches[|searches| - 1];
      AllFoundIsChoice(q, init);
      UpToAndFrom(q, last, 0);
      assert [] + CandidatesFrom(q, last, 0) == CandidatesFrom(q, last, 0);
      FromForLayout(q, last, 0);
      ForLayoutTogether(q, Candidates(q, init), CandidatesFrom(q, last, 0));
      FoundIs(q, last, 0, Candidates(q, init));
    }
  }

  lemma ChoiceOfNone(q: Query)
    ensures Choice(q, []) == None
  {
  }

  // ---------------------------------------------------------------------
  // What that means
  // ---------------------------------------------------------------------

  /** Eligible in one of the searches. */
  ghost predicate Candidate(q: Query, searches: seq<Search>, b: Binding) {
    exists k :: 0 <= k < |searches| && b in searches[k].bindings && Eligible(q, searches[k], b)
  }

  lemma {:induction false} CandidatesAre(q: Query, searches: seq<Search>, b: Binding)
    ensures b in Candidates(q, searches) <==> Candidate(q, searches, b)
  {
    hide Eligible;
    if searches != [] {
      var init, last := searches[..|searches| - 1], searches[|searches| - 1];
      CandidatesAre(q, init, b);
      UpToAndFrom(q, last, 0);
      assert [] + CandidatesFrom(q, last, 0) == CandidatesFrom(q, last, 0);
      FromForLayout(q, last, 0);
      assert last.bindings[0..] == last.bindings;
      if Candidate(q, init, b) {
        var k :| 0 <= k < |init| && b in init[k].bindings && Eligible(q, init[k], b);
        assert searches[k] == init[k];
      }
      if Candidate(q, searches, b) {
        var k :| 0 <= k < |searches| && b in searches[k].bindings && Eligible(q, searches[k], b);
        assert k < |init| ==> init[k] == searches[k];
      }
    }
  }

  /** The top candidates of all the searches. */
  function TopOf(q: Query, searches: seq<Search>): seq<Binding> { Top(q, Candidates(q, searches)) }

  lemma TopIs(q: Query, searches: seq<Search>)
    ensures TopOf(q, searches) == [] <==> forall b :: !Candidate(q, searches, b)
    ensures forall b :: b in TopOf(q, searches) <==>
              Candidate(q, searches, b) && forall c :: Candidate(q, searches, c) ==> Rank(q, c) <= Rank(q, b)
  {
    var bs := Candidates(q, searches);
    OfRankIs(q, bs, MaxRank(q, bs));
    forall b
      ensures b in bs <==> Candidate(q, searches, b)
    {
      CandidatesAre(q, searches, b);
    }
    hide Candidate, Candidates, MaxRank, OfRank;
    if bs != [] {
      assert Top(q, bs)[0] in Top(q, bs);
    }
  }

  /**
   * The searches end with a binding exactly when there is an eligible one; it
   * names the device exactly when some eligible one does; and for that device it
   * is for the active layout exactly when some eligible one is.
   */
  lemma FindsTheRightBinding(q: Query, searches: seq<Search>)
    ensures var r := AllFound(q, searches);
            && (r.Some? <==> exists b :: Candidate(q, searches, b))
            && (r.Some? ==>
                  && Candidate(q, searches, r.value)
                  && (r.value.input == q.input <==> exists b :: Candidate(q, searches, b) && b.input == q.input)
                  && (r.value.group.Some? <==>
                        exists b :: Candidate(q, searches, b) && b.group.Some?
                                    && (b.input == q.input <==> r.value.input == q.input)))
  {
    AllFoundIsChoice(q, searches);
    TopIs(q, searches);
    FirstsAre(q, TopOf(q, searches));
    hide Candidate, Candidates, Top, FirstLocked, FirstInhibited, AllFound;
    if TopOf(q, searches) != [] {
      assert TopOf(q, searches)[0] in TopOf(q, searches);
      assert Pick(q, TopOf(q, searches)) in TopOf(q, searches);
    }
  }

  /** The held keys are the binding's, all of them and in order; or it is a single key, the one just pressed. */
  ghost predicate KeysFit(s: Search, b: Binding) {
    || b.keys == s.pressedKeys
    || (|b.keys| == 1 != |s.pressedKeys| && b.keys == [s.currentKey])
  }

  /**
   * The binding that is chosen fits: the modifiers and keys, press or release,
   * the device or any, the layout or any; and with the session locked, or
   * shortcuts inhibited, it is one that is meant for that.
   */
  lemma ChosenFits(q: Query, searches: seq<Search>)
    ensures AllFound(q, searches).Some? ==>
              var b := AllFound(q, searches).value;
              && b.release == q.release
              && (q.locked ==> b.locked) && (q.inhibited ==> b.inhibited)
              && (b.input == q.input || (b.input == "*" && !q.exactInput))
              && (b.group == None || b.group == Some(q.group))
              && exists k :: 0 <= k < |searches| && b in searches[k].bindings
                             && b.modifiers == searches[k].modifiers && KeysFit(searches[k], b)
  {
    FindsTheRightBinding(q, searches);
    hide AllFound;
  }

  /** A binding that fits is not passed over for nothing. */
  lemma FittingIsFound(q: Query, searches: seq<Search>, k: nat, b: Binding)
    requires k < |searches| && b in searches[k].bindings && b.modifiers == searches[k].modifiers && KeysFit(searches[k], b)
    requires b.release == q.release && (q.locked ==> b.locked) && (q.inhibited ==> b.inhibited)
    requires (b.input == q.input || (b.input == "*" && !q.exactInput)) && (b.group == None || b.group == Some(q.group))
    ensures AllFound(q, searches).Some?
  {
    FindsTheRightBinding(q, searches);
    assert Candidate(q, searches, b);
    hide AllFound;
  }

  /**
   * If any candidate names the device and the active layout, the first one that
   * does is chosen, whatever its flags.
   */
  lemma FirstExactIsChosen(q: Query, searches: seq<Search>, b: Binding)
    requires Candidate(q, searches, b) && b.input == q.input && b.group.Some?
    ensures TopOf(q, searches) == OfRank(q, Candidates(q, searches), 3) != []
    ensures AllFound(q, searches) == Some(TopOf(q, searches)[0])
  {
    AllFoundIsChoice(q, searches);
    CandidatesAre(q, searches, b);
    var bs := Candidates(q, searches);
    OfRankIs(q, bs, 3);
    OfRankIs(q, bs, MaxRank(q, bs));
    assert TopOf(q, searches)[0] in TopOf(q, searches);
  }

  /**
   * The lock state asked for is met whenever a top candidate meets it, if and
   * only if those are for any layout or the first of them meets it.
   */
  lemma LockStateIsMet(q: Query, searches: seq<Search>)
    requires TopOf(q, searches) != []
    ensures var top, r := TopOf(q, searches), AllFound(q, searches);
            && r.Some?
            && ((exists b :: b in top && b.locked == q.locked) ==>
                  (r.value.locked == q.locked <==> top[0].group.None? || top[0].locked == q.locked))
  {
    AllFoundIsChoice(q, searches);
    FirstsAre(q, TopOf(q, searches));
    hide Candidates, Top, FirstLocked, FirstInhibited, AllFound;
  }

  /**
   * The inhibition state asked for is met whenever a top candidate meets it, if
   * and only if the lock state does not settle the choice first: the first of
   * those for the active layout, or the first of those for any layout that meets
   * the lock state, has it too, or there is neither.
   */
  lemma InhibitionIsMet(q: Query, searches: seq<Search>)
    requires TopOf(q, searches) != []
    ensures var top, r := TopOf(q, searches), AllFound(q, searches);
            && r.Some?
            && ((exists b :: b in top && b.inhibited == q.inhibited) ==>
                  (r.value.inhibited == q.inhibited <==>
                     if top[0].group.Some? then top[0].inhibited == q.inhibited
                     else FirstLocked(q, top).Some? ==> FirstLocked(q, top).value.inhibited == q.inhibited))
  {
    AllFoundIsChoice(q, searches);
    FirstsAre(q, TopOf(q, searches));
    hide Candidates, Top, FirstLocked, FirstInhibited, AllFound;
  }

  /**
   * So it can go unmet: the first binding for the active layout stays, even if a
   * later one fits the lock state better; and where the lock state is met, the
   * inhibition state is not looked at any more.
   */
  lemma PreferencesStopEarly()
    ensures var q := Query(false, false, false, "kbd", false, 0);
            var grouped := Binding(0, false, true, false, Some(0), "kbd", [1]);
            var inhibited := Binding(0, false, false, true, None, "kbd", [1]);
            && AllFound(q, [Search([1], 1, 0, [grouped, grouped.(locked := false)])]) == Some(grouped)
            && AllFound(q, [Search([1], 1, 0, [inhibited, inhibited.(inhibited := false)])]) == Some(inhibited)
  {
    var q := Query(false, false, false, "kbd", false, 0);
    var grouped := Binding(0, false, true, false, Some(0), "kbd", [1]);
    var inhibited := Binding(0, false, false, true, None, "kbd", [1]);
    var s := Search([1], 1, 0, [grouped, grouped.(locked := false)]);
    var u := Search([1], 1, 0, [inhibited, inhibited.(inhibited := false)]);
    assert Found(q, s, 2, Some(grouped)) == Some(grouped);
    assert Found(q, u, 2, Some(inhibited)) == Some(inhibited);
    OneMoreSearch(q, [], s);
    OneMoreSearch(q, [], u);
    assert [] + [s] == [s] && [] + [u] == [u];
  }

  // ---------------------------------------------------------------------
  // The loops
  // ---------------------------------------------------------------------

  method MatchesKeys(pressedKeys: seq<nat>, currentKey: nat, keys: seq<nat>) returns (match': bool)
    ensures match' == Matches(Search(pressedKeys, currentKey, 0, []), Binding(0, false, false, false, None, "", keys))
  {
    match' := false;
    if |pressedKeys| == |keys| {
      match' := true;
      for j := 0 to |pressedKeys|
        invariant keys[..j] == pressedKeys[..j]
      {
        if keys[j] != pressedKeys[j] {
          return false;
        }
      }
      assert keys[..|keys|] == keys && pressedKeys[..|keys|] == pressedKeys;
    } else if |keys| == 1 {
      match' := currentKey == keys[0];
    }
  }

  method GetActiveBinding(q: Query, s: Search, currentBinding: Option<Binding>) returns (current: Option<Binding>)
    ensures current == Found(q, s, 0, currentBinding)
  {
    current := currentBinding;
    for i := 0 to |s.bindings|
      invariant Found(q, s, i, current) == Found(q, s, 0, currentBinding)
    {
      var binding := s.bindings[i];
      if s.modifiers != binding.modifiers || q.release != binding.release || (q.locked && !binding.locked)
         || (q.inhibited && !binding.inhibited) || (binding.group.Some? && binding.group != Some(q.group))
         || (binding.input != q.input && (binding.input != "*" || q.exactInput)) {
        continue;
      }
      var matches := MatchesKeys(s.pressedKeys, s.currentKey, binding.keys);
      if !matches {
        continue;
      }
      if current.Some? && Keeps(q, current.value, binding) {
        continue;
      }
      current := Some(binding);
      if Perfect(q, binding) {
        return;
      }
    }
  }

  /** The searches of handle_key_event for one event: by keycode, by raw keysym, by translated keysym. */
  method FindBinding(q: Query, byKeycode: Search, byRawKeysym: Search, byTranslatedKeysym: Search)
    returns (binding: Option<Binding>)
    ensures binding == AllFound(q, [byKeycode, byRawKeysym, byTranslatedKeysym])
  {
    binding := GetActiveBinding(q, byKeycode, None);
    binding := GetActiveBinding(q, byRawKeysym, binding);
    binding := GetActiveBinding(q, byTranslatedKeysym, binding);
    OneMoreSearch(q, [], byKeycode);
    OneMoreSearch(q, [byKeycode], byRawKeysym);
    OneMoreSearch(q, [byKeycode, byRawKeysym], byTranslatedKeysym);
    assert [] + [byKeycode] == [byKeycode] && [byKeycode] + [byRawKeysym] == [byKeycode, byRawKeysym];
    assert [byKeycode, byRawKeysym] + [byTranslatedKeysym] == [byKeycode, byRawKeysym, byTranslatedKeysym];
  }
}
