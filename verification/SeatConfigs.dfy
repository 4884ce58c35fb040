/**
 * Seat configuration: src/config/seat.c keeps one merged configuration per seat
 * name, and merges what is configured for all seats into each of them.
 */
module SeatConfigs {
  import opened Seqs

  datatype HideWhenTyping = HideDefault | HideEnable | HideDisable
  datatype Constrain = ConstrainDefault | ConstrainEnable | ConstrainDisable
  datatype Grouping = GroupDefault | GroupNone | GroupSmart

  const UINT32_MAX: nat := 0xFFFF_FFFF
  const DEFAULT_XCURSOR_SIZE: int := 24

  datatype Config = Config(
    name: string,
    fallback: int,
    attachments: seq<string>,
    hideCursorTimeout: int,
    hideWhenTyping: HideWhenTyping,
    constrain: Constrain,
    grouping: Grouping,
    xcursor: Option<string>,
    xcursorSize: int,
    idleInhibit: nat,
    idleWake: nat)

  /** new_seat_config. */
  function Fresh(name: string): Config {
    Config(name, -1, [], -1, HideDefault, ConstrainDefault, GroupDefault, None, DEFAULT_XCURSOR_SIZE, UINT32_MAX, UINT32_MAX)
  }

  // ---------------------------------------------------------------------
  // Merging
  // ---------------------------------------------------------------------

  /** The attachments of both, in order, each once unless it was there twice before. */
  function Union(a: seq<string>, b: seq<string>): (r: seq<string>) {
    if b == [] then a
    else
      var r := Union(a, b[..|b| - 1]);
      if b[|b| - 1] in r then r else r + [b[|b| - 1]]
  }

  /** merge_seat_config: what is set in the source wins. */
  function Merged(dest: Config, source: Config): (r: Config)
    ensures r.name == dest.name
  {
    Config(
      dest.name,
      if source.fallback != -1 then source.fallback else dest.fallback,
      Union(dest.attachments, source.attachments),
      if source.hideCursorTimeout != -1 then source.hideCursorTimeout else dest.hideCursorTimeout,
      if source.hideWhenTyping != HideDefault then source.hideWhenTyping else dest.hideWhenTyping,
      if source.constrain != ConstrainDefault then source.constrain else dest.constrain,
      if source.grouping != GroupDefault then source.grouping else dest.grouping,
      if source.xcursor.Some? then source.xcursor else dest.xcursor,
      if source.xcursor.Some? then source.xcursorSize else dest.xcursorSize,
      if source.idleInhibit != UINT32_MAX then source.idleInhibit else dest.idleInhibit,
      if source.idleWake != UINT32_MAX then source.idleWake else dest.idleWake)
  }

  lemma {:induction false} UnionMembers(a: seq<string>, b: seq<string>, x: string)
    ensures x in Union(a, b) <==> x in a || x in b
  {
    if b != [] {
      UnionMembers(a, b[..|b| - 1], x);
      assert b == b[..|b| - 1] + [b[|b| - 1]];
    }
  }

  lemma {:induction false} UnionAssociative(a: seq<string>, b: seq<string>, c: seq<string>)
    ensures Union(Union(a, b), c) == Union(a, Union(b, c))
  {
    if c != [] {
      var init, x := c[..|c| - 1], c[|c| - 1];
      UnionAssociative(a, b, init);
      var bc := Union(b, init);
      UnionMembers(a, bc, x);
      if x !in bc {
        assert (bc + [x])[..|bc|] == bc;
      }
    }
  }

  /** The union with nothing is the list itself exactly when it repeats nothing. */
  lemma {:induction false} UnionWithNone(b: seq<string>)
    ensures Union([], b) == b <==> NoDuplicates(b)
    ensures NoDuplicates(Union([], b)) && |Union([], b)| <= |b|
  {
    if b != [] {
      var init, x := b[..|b| - 1], b[|b| - 1];
      UnionWithNone(init);
      UnionMembers([], init, x);
      assert b == init + [x];
      if NoDuplicates(b) {
        assert NoDuplicates(init) && x !in init;
      }
    }
  }

  /** Merging is associative, attachments and their order included. */
  lemma MergeAssociative(a: Config, b: Config, c: Config)
    ensures Merged(Merged(a, b), c) == Merged(a, Merged(b, c))
  {
    UnionAssociative(a.attachments, b.attachments, c.attachments);
  }

  /** What a seat block can configure: no device attached twice, and no cursor size without a theme. */
  ghost predicate WellFormed(c: Config) {
    NoDuplicates(c.attachments) && (c.xcursor.None? ==> c.xcursorSize == DEFAULT_XCURSOR_SIZE)
  }

  /** A fresh configuration changes nothing when merged onto, exactly for the well-formed ones. */
  lemma FreshIsIdentity(c: Config)
    ensures Merged(Fresh(c.name), c) == c <==> WellFormed(c)
  {
    UnionWithNone(c.attachments);
  }

  // ---------------------------------------------------------------------
  // The list
  // ---------------------------------------------------------------------

  predicate IsNamed(configs: seq<Config>, name: string) {
    exists i :: 0 <= i < |configs| && configs[i].name == name
  }

  /** list_seq_find by name: the first index, or the length. */
  function FindName(configs: seq<Config>, name: string): (i: nat)
    ensures i <= |configs| && (i < |configs| ==> configs[i].name == name)
    ensures forall j :: 0 <= j < i ==> configs[j].name != name
  {
    if configs == [] || configs[0].name == name then 0 else 1 + FindName(configs[1..], name)
  }

  /** merge_wildcard_on_all. */
  function MergedOnAll(configs: seq<Config>, wildcard: Config): (r: seq<Config>)
    ensures |r| == |configs|
    ensures forall i :: 0 <= i < |r| ==>
              r[i] == if configs[i].name != wildcard.name then Merged(configs[i], wildcard) else configs[i]
  {
    seq(|configs|, i requires 0 <= i < |configs| =>
      if configs[i].name != wildcard.name then Merged(configs[i], wildcard) else configs[i])
  }

  /** The first configuration stored under a name, which starts from the one for all seats. */
  function First(configs: seq<Config>, sc: Config): (r: Config)
    ensures r.name == sc.name
  {
    var i := FindName(configs, "*");
    if sc.name == "*" || i == |configs| then sc else Merged(Merged(Fresh(sc.name), configs[i]), sc)
  }

  /** store_seat_config. */
  function Stored(configs: seq<Config>, sc: Config): seq<Config> {
    var all := if sc.name == "*" then MergedOnAll(configs, sc) else configs;
    var i := FindName(all, sc.name);
    if i < |all| then all[i := Merged(all[i], sc)] else all + [First(all, sc)]
  }

  function StoredAll(history: seq<Config>): seq<Config> {
    if history == [] then [] else Stored(StoredAll(history[..|history| - 1]), history[|history| - 1])
  }

  // ---------------------------------------------------------------------
  // The list as folds over the history
  // ---------------------------------------------------------------------

  /** Everything that was configured for this seat or for all of them, merged in the order of time. */
  function Fold(name: string, history: seq<Config>): (r: Config)
    ensures r.name == name
  {
    if history == [] then Fresh(name)
    else
      var before, last := Fold(name, history[..|history| - 1]), history[|history| - 1];
      if last.name == "*" || last.name == name then Merged(before, last) else before
  }

  ghost predicate UniqueNames(configs: seq<Config>) {
    forall i, j :: 0 <= i < j < |configs| ==> configs[i].name != configs[j].name
  }

  ghost predicate AllWellFormed(history: seq<Config>) {
    forall i :: 0 <= i < |history| ==> WellFormed(history[i])
  }

  /** The list holds the fold of every name that was mentioned, once. */
  ghost predicate Faithful(configs: seq<Config>, history: seq<Config>) {
    && UniqueNames(configs)
    && (forall name :: IsNamed(configs, name) <==> IsNamed(history, name))
    && (forall i :: 0 <= i < |configs| ==> configs[i] == Fold(configs[i].name, history))
  }

  /** Until a seat is named, its fold is that of all seats. */
  lemma {:induction false} UnnamedFold(name: string, history: seq<Config>)
    requires !IsNamed(history, name)
    ensures Fold(name, history) == Merged(Fresh(name), Fold("*", history))
    ensures !IsNamed(history, "*") ==> Fold(name, history) == Fresh(name)
  {
    if history != [] {
      var init, last := history[..|history| - 1], history[|history| - 1];
      assert last.name != name && forall i :: 0 <= i < |init| ==> init[i] == history[i];
      UnnamedFold(name, init);
      if last.name == "*" {
        MergeAssociative(Fresh(name), Fold("*", init), last);
      } else {
        assert !IsNamed(history, "*") ==> !IsNamed(init, "*");
      }
    }
  }

  lemma NamedAppend(history: seq<Config>, sc: Config, name: string)
    ensures IsNamed(history + [sc], name) <==> IsNamed(history, name) || sc.name == name
    ensures Fold(name, history + [sc])
            == if sc.name == "*" || sc.name == name then Merged(Fold(name, history), sc) else Fold(name, history)
  {
    assert (history + [sc])[..|history|] == history;
    assert (history + [sc])[|history|] == sc;
    if IsNamed(history, name) {
      var i :| 0 <= i < |history| && history[i].name == name;
      assert (history + [sc])[i].name == name;
    }
  }

  /** A configuration stored under a new name is the fold too. */
  lemma FirstIsFold(configs: seq<Config>, history: seq<Config>, sc: Config)
    requires Faithful(configs, history) && WellFormed(sc) && !IsNamed(history, sc.name)
    ensures First(configs, sc) == Fold(sc.name, history + [sc])
  {
    NamedAppend(history, sc, sc.name);
    FreshIsIdentity(sc);
    UnnamedFold(sc.name, history);
    var i := FindName(configs, "*");
    if i < |configs| {
      assert configs[i] == Fold("*", history);
    } else {
      assert !IsNamed(configs, "*");
    }
  }

  /** The step before the search: everything but the new configuration's own name is up to date. */
  lemma OthersUpToDate(configs: seq<Config>, history: seq<Config>, sc: Config, i: nat)
    requires Faithful(configs, history) && i < |configs|
    ensures var all := if sc.name == "*" then MergedOnAll(configs, sc) else configs;
            && all[i].name == configs[i].name
            && (configs[i].name != sc.name ==> all[i] == Fold(configs[i].name, history + [sc]))
            && (configs[i].name == sc.name ==> Merged(all[i], sc) == Fold(sc.name, history + [sc]))
  {
    NamedAppend(history, sc, configs[i].name);
  }

  lemma StoredNames(configs: seq<Config>, sc: Config)
    requires UniqueNames(configs)
    ensures UniqueNames(Stored(configs, sc))
    ensures forall name :: IsNamed(Stored(configs, sc), name) <==> IsNamed(configs, name) || name == sc.name
  {
    hide Merged, First;
    var all := if sc.name == "*" then MergedOnAll(configs, sc) else configs;
    var r := Stored(configs, sc);
    assert forall i :: 0 <= i < |configs| ==> r[i].name == configs[i].name;
    var k := FindName(all, sc.name);
    assert r[k].name == sc.name;
    forall name
      ensures IsNamed(r, name) <==> IsNamed(configs, name) || name == sc.name
    {
      if IsNamed(configs, name) {
        var i :| 0 <= i < |configs| && configs[i].name == name;
        assert r[i].name == name;
      }
    }
  }

  lemma StoredFolds(configs: seq<Config>, history: seq<Config>, sc: Config, i: nat)
    requires Faithful(configs, history) && WellFormed(sc) && i < |Stored(configs, sc)|
    ensures Stored(configs, sc)[i] == Fold(Stored(configs, sc)[i].name, history + [sc])
  {
    hide Merged, First, Fold;
    var all := if sc.name == "*" then MergedOnAll(configs, sc) else configs;
    var k := FindName(all, sc.name);
    if i < |configs| {
      OthersUpToDate(configs, history, sc, i);
    } else {
      assert forall j :: 0 <= j < |configs| ==> all[j].name == configs[j].name;
      assert !IsNamed(configs, sc.name);
      FirstIsFold(configs, history, sc);
      assert sc.name == "*" ==> First(all, sc) == First(configs, sc) by {
        FirstOfWildcard(all, configs, sc);
      }
    }
  }

  lemma FirstOfWildcard(a: seq<Config>, b: seq<Config>, sc: Config)
    ensures sc.name == "*" ==> First(a, sc) == First(b, sc)
  {
  }

  lemma StoredIsFaithful(configs: seq<Config>, history: seq<Config>, sc: Config)
    requires Faithful(configs, history) && WellFormed(sc)
    ensures Faithful(Stored(configs, sc), history + [sc])
  {
    hide Stored, Fold;
    StoredNames(configs, sc);
    forall name
      ensures IsNamed(history + [sc], name) <==> IsNamed(history, name) || sc.name == name
    {
      NamedAppend(history, sc, name);
    }
    forall i | 0 <= i < |Stored(configs, sc)|
      ensures Stored(configs, sc)[i] == Fold(Stored(configs, sc)[i].name, history + [sc])
    {
      StoredFolds(configs, history, sc, i);
    }
  }

  /**
   * After every history of well-formed configurations no name is stored twice,
   * and what is stored under a name is everything said about that seat and about
   * all seats, merged in the order it was said.
   */
  lemma {:induction false} EveryHistoryIsFaithful(history: seq<Config>)
    requires AllWellFormed(history)
    ensures Faithful(StoredAll(history), history)
  {
    if history != [] {
      var init, last := history[..|history| - 1], history[|history| - 1];
      EveryHistoryIsFaithful(init);
      StoredIsFaithful(StoredAll(init), init, last);
      assert history == init + [last];
    }
  }

  // ---------------------------------------------------------------------
  // The last word on every setting
  // ---------------------------------------------------------------------

  /** What a configuration says about this seat. */
  predicate Concerns(c: Config, name: string) { c.name == "*" || c.name == name }

  /** The value is that of the last configuration about this seat that sets it, or unset if there is none. */
  ghost predicate IsLastWord<V>(history: seq<Config>, name: string, get: Config -> V, unset: V, value: V) {
    (exists i :: 0 <= i < |history| && IsLast(history, name, get, unset, i) && value == get(history[i]))
    || (value == unset && forall i :: 0 <= i < |history| && Concerns(history[i], name) ==> get(history[i]) == unset)
  }

  /** The configuration at i sets it, and no later one about this seat does. */
  ghost predicate IsLast<V>(history: seq<Config>, name: string, get: Config -> V, unset: V, i: nat)
    requires i < |history|
  {
    && Concerns(history[i], name) && get(history[i]) != unset
    && forall j :: i < j < |history| && Concerns(history[j], name) ==> get(history[j]) == unset
  }

  /** A setting that a merge takes from the source if it is set there, and that is unset in a fresh configuration. */
  ghost predicate IsSetting<V>(get: Config -> V, unset: V) {
    && (forall name :: get(Fresh(name)) == unset)
    && forall a, b :: get(Merged(a, b)) == if get(b) != unset then get(b) else get(a)
  }

  lemma {:induction false} LastWordCounts<V>(history: seq<Config>, name: string, get: Config -> V, unset: V)
    requires IsSetting(get, unset)
    ensures IsLastWord(history, name, get, unset, get(Fold(name, history)))
  {
    if history != [] {
      var init, last := history[..|history| - 1], history[|history| - 1];
      LastWordCounts(init, name, get, unset);
      hide Merged;
      if Concerns(last, name) && get(last) != unset {
        assert IsLast(history, name, get, unset, |history| - 1);
      } else if i :| 0 <= i < |init| && IsLast(init, name, get, unset, i) && get(Fold(name, init)) == get(init[i]) {
        assert IsLast(history, name, get, unset, i);
      }
    }
  }

  /** The cursor theme and its size, which are set together. */
  function Cursor(c: Config): Option<(string, int)> {
    if c.xcursor.Some? then Some((c.xcursor.value, c.xcursorSize)) else None
  }

  lemma SettingsAre()
    ensures IsSetting((c: Config) => c.fallback, -1) && IsSetting((c: Config) => c.hideCursorTimeout, -1)
    ensures IsSetting((c: Config) => c.hideWhenTyping, HideDefault)
    ensures IsSetting((c: Config) => c.constrain, ConstrainDefault)
    ensures IsSetting((c: Config) => c.grouping, GroupDefault) && IsSetting(Cursor, None)
    ensures IsSetting((c: Config) => c.idleInhibit, UINT32_MAX) && IsSetting((c: Config) => c.idleWake, UINT32_MAX)
  {
  }

  /**
   * After every history, each setting stored for a seat is the one said last
   * about that seat or about all seats, and the value for unset if none was.
   */
  lemma LaterSettingsWin(history: seq<Config>, k: nat)
    requires AllWellFormed(history) && k < |StoredAll(history)|
    ensures var c := StoredAll(history)[k];
            && IsLastWord(history, c.name, (d: Config) => d.fallback, -1, c.fallback)
            && IsLastWord(history, c.name, (d: Config) => d.hideCursorTimeout, -1, c.hideCursorTimeout)
            && IsLastWord(history, c.name, (d: Config) => d.hideWhenTyping, HideDefault, c.hideWhenTyping)
            && IsLastWord(history, c.name, (d: Config) => d.constrain, ConstrainDefault, c.constrain)
            && IsLastWord(history, c.name, (d: Config) => d.grouping, GroupDefault, c.grouping)
            && IsLastWord(history, c.name, Cursor, None, Cursor(c))
            && IsLastWord(history, c.name, (d: Config) => d.idleInhibit, UINT32_MAX, c.idleInhibit)
            && IsLastWord(history, c.name, (d: Config) => d.idleWake, UINT32_MAX, c.idleWake)
  {
    EveryHistoryIsFaithful(history);
    SettingsAre();
    var c := StoredAll(history)[k];
    assert c == Fold(c.name, history);
    hide Fold, Merged, StoredAll, Faithful, IsSetting, IsLastWord;
    LastWordCounts(history, c.name, (d: Config) => d.fallback, -1);
    LastWordCounts(history, c.name, (d: Config) => d.hideCursorTimeout, -1);
    LastWordCounts(history, c.name, (d: Config) => d.hideWhenTyping, HideDefault);
    LastWordCounts(history, c.name, (d: Config) => d.constrain, ConstrainDefault);
    LastWordCounts(history, c.name, (d: Config) => d.grouping, GroupDefault);
    LastWordCounts(history, c.name, Cursor, None);
    LastWordCounts(history, c.name, (d: Config) => d.idleInhibit, UINT32_MAX);
    LastWordCounts(history, c.name, (d: Config) => d.idleWake, UINT32_MAX);
  }

  /** The attachments stored for a seat are exactly those said of it or of all seats. */
  lemma {:induction false} AttachmentsAreAll(history: seq<Config>, name: string, x: string)
    ensures x in Fold(name, history).attachments <==>
              exists i :: 0 <= i < |history| && Concerns(history[i], name) && x in history[i].attachments
  {
    if history != [] {
      var init, last := history[..|history| - 1], history[|history| - 1];
      AttachmentsAreAll(init, name, x);
      UnionMembers(Fold(name, init).attachments, last.attachments, x);
      assert forall i :: 0 <= i < |init| ==> history[i] == init[i];
    }
  }

  /** x is in the list, and y not before it. */
  ghost predicate ComesFirst(b: seq<string>, x: string, y: string) {
    exists p :: 0 <= p < |b| && b[p] == x && y !in b[..p]
  }

  /** Merging leaves the attachments that were there where they are, and puts new ones behind in the order they come in. */
  lemma {:induction false} UnionExtends(a: seq<string>, b: seq<string>)
    ensures a <= Union(a, b) && (NoDuplicates(a) ==> NoDuplicates(Union(a, b)))
    ensures forall i, j :: |a| <= i < j < |Union(a, b)| ==> ComesFirst(b, Union(a, b)[i], Union(a, b)[j])
  {
    if b != [] {
      var init, x := b[..|b| - 1], b[|b| - 1];
      UnionExtends(a, init);
      var before, r := Union(a, init), Union(a, b);
      forall i, j | |a| <= i < j < |r|
        ensures ComesFirst(b, r[i], r[j])
      {
        if j < |before| {
          var p :| 0 <= p < |init| && init[p] == before[i] && before[j] !in init[..p];
          assert b[p] == before[i] && b[..p] == init[..p];
        } else {
          UnionMembers(a, init, x);
          AddedIsIn(a, init, i);
          var p :| 0 <= p < |init| && init[p] == before[i];
          assert b[p] == r[i] && x !in init && b[..p] == init[..p];
        }
      }
    }
  }

  lemma {:induction false} AddedIsIn(a: seq<string>, b: seq<string>, i: nat)
    requires |a| <= i < |Union(a, b)|
    ensures Union(a, b)[i] in b
  {
    if b != [] {
      var init := b[..|b| - 1];
      assert b == init + [b[|b| - 1]];
      if i < |Union(a, init)| {
        AddedIsIn(a, init, i);
      }
    }
  }

  // ---------------------------------------------------------------------
  // The objects
  // ---------------------------------------------------------------------

  class SeatConfig {
    const name: string
    var fallback: int
    var attachments: seq<string>
    var hideCursorTimeout: int
    var hideWhenTyping: HideWhenTyping
    var constrain: Constrain
    var grouping: Grouping
    var xcursor: Option<string>
    var xcursorSize: int
    var idleInhibit: nat
    var idleWake: nat

    ghost function Value(): Config
      reads this
    {
      Config(name, fallback, attachments, hideCursorTimeout, hideWhenTyping, constrain, grouping, xcursor, xcursorSize,
             idleInhibit, idleWake)
    }

    constructor (name: string)
      ensures Value() == Fresh(name)
    {
      this.name := name;
      fallback, attachments, hideCursorTimeout := -1, [], -1;
      hideWhenTyping, constrain, grouping := HideDefault, ConstrainDefault, GroupDefault;
      xcursor, xcursorSize, idleInhibit, idleWake := None, DEFAULT_XCURSOR_SIZE, UINT32_MAX, UINT32_MAX;
    }

    /** The attachment loops of merge_seat_config. */
    method MergeAttachments(source: SeatConfig)
      requires source != this
      modifies `attachments
      ensures attachments == Union(old(attachments), source.attachments)
    {
      for i := 0 to |source.attachments|
        invariant attachments == Union(old(attachments), source.attachments[..i])
      {
        assert source.attachments[..i + 1][..i] == source.attachments[..i];
        var found := false;
        for j := 0 to |attachments|
          invariant found <==> source.attachments[i] in attachments[..j]
        {
          if source.attachments[i] == attachments[j] {
            found := true;
          }
        }
        if !found {
          attachments := attachments + [source.attachments[i]];
        }
      }
      assert source.attachments[..|source.attachments|] == source.attachments;
    }

    /** The settings that are enumerations or have a value for unset. */
    method MergeSettings(source: SeatConfig)
      requires source != this
      modifies `fallback, `hideCursorTimeout, `hideWhenTyping, `constrain, `grouping
      ensures var m := Merged(old(Value()), source.Value());
              && fallback == m.fallback && hideCursorTimeout == m.hideCursorTimeout
              && hideWhenTyping == m.hideWhenTyping && constrain == m.constrain && grouping == m.grouping
    {
      hide Union;
      if source.fallback != -1 {
        fallback := source.fallback;
      }
      if source.hideCursorTimeout != -1 {
        hideCursorTimeout := source.hideCursorTimeout;
      }
      if source.hideWhenTyping != HideDefault {
        hideWhenTyping := source.hideWhenTyping;
      }
      if source.constrain != ConstrainDefault {
        constrain := source.constrain;
      }
      if source.grouping != GroupDefault {
        grouping := source.grouping;
      }
    }

    method Merge(source: SeatConfig)
      requires source != this
      modifies this
      ensures Value() == Merged(old(Value()), source.Value())
    {
      hide Union;
      MergeSettings(source);
      MergeAttachments(source);
      if source.xcursor.Some? {
        xcursor, xcursorSize := source.xcursor, source.xcursorSize;
      }
      if source.idleInhibit != UINT32_MAX {
        idleInhibit := source.idleInhibit;
      }
      if source.idleWake != UINT32_MAX {
        idleWake := source.idleWake;
      }
    }
  }

  class SeatConfigList {
    var configs: seq<SeatConfig>

    constructor ()
      ensures configs == [] && Values() == []
    {
      configs := [];
    }

    ghost function Values(): (values: seq<Config>)
      reads this, configs
      ensures |values| == |configs|
      ensures forall i :: 0 <= i < |values| ==> values[i] == configs[i].Value()
    {
      seq(|configs|, i requires 0 <= i < |configs| reads this, configs => configs[i].Value())
    }

    method Find(name: string) returns (i: nat)
      ensures i == FindName(Values(), name)
    {
      i := 0;
      while i < |configs| && configs[i].name != name
        invariant i <= |configs|
        invariant FindName(Values(), name) == i + FindName(Values()[i..], name)
      {
        assert Values()[i..][1..] == Values()[i + 1..];
        i := i + 1;
      }
    }

    method MergeWildcardOnAll(wildcard: SeatConfig)
      requires NoDuplicates(configs) && wildcard !in configs
      modifies configs
      ensures Values() == MergedOnAll(old(Values()), wildcard.Value()) && wildcard.Value() == old(wildcard.Value())
    {
      for i := 0 to |configs|
        invariant forall j :: 0 <= j < i ==> configs[j].Value() == MergedOnAll(old(Values()), wildcard.Value())[j]
        invariant forall j :: i <= j < |configs| ==> configs[j].Value() == old(Values())[j]
        invariant wildcard.Value() == old(wildcard.Value())
      {
        if wildcard.name != configs[i].name {
          configs[i].Merge(wildcard);
        }
      }
    }

    /** A new entry, on top of what all seats have. */
    method AddFirst(sc: SeatConfig)
      requires NoDuplicates(configs) && sc !in configs
      modifies `configs
      ensures Values() == old(Values()) + [First(old(Values()), sc.Value())]
      ensures NoDuplicates(configs)
    {
      var added := sc;
      if sc.name != "*" {
        var i := Find("*");
        if i < |configs| {
          added := new SeatConfig(sc.name);
          added.Merge(configs[i]);
          added.Merge(sc);
        }
      }
      AppendKeepsNoDuplicates(configs, added);
      configs := configs + [added];
    }

    /** store_seat_config; a configuration is stored once and then belongs to the list. */
    method Store(sc: SeatConfig)
      requires NoDuplicates(configs) && sc !in configs
      modifies this, configs
      ensures NoDuplicates(configs)
      ensures Values() == Stored(old(Values()), old(sc.Value()))
    {
      hide Merged, MergedOnAll, FindName, First;
      if sc.name == "*" {
        MergeWildcardOnAll(sc);
      }
      var i := Find(sc.name);
      if i < |configs| {
        MergeOnto(i, sc);
      } else {
        AddFirst(sc);
      }
    }

    /** Merges onto the entry that is there. */
    method MergeOnto(i: nat, sc: SeatConfig)
      requires NoDuplicates(configs) && sc !in configs && i < |configs|
      modifies configs
      ensures Values() == old(Values())[i := Merged(old(Values())[i], sc.Value())] && sc.Value() == old(sc.Value())
    {
      hide Merged;
      ghost var before := Values();
      configs[i].Merge(sc);
      assert forall j :: 0 <= j < |configs| && j != i ==> configs[j] != configs[i];
      assert Values() == before[i := Merged(before[i], sc.Value())];
    }
  }
}
