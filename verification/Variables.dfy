/**
 * Configuration variables: cmd_set of src/commands/set.c, which keeps the
 * symbol list, and do_var_replacement of src/config.c, which expands it.
 */
module Variables {
  import opened Seqs
  import opened Args

  datatype Symbol = Symbol(name: string, value: string)

  // ---------------------------------------------------------------------
  // What a symbol list defines
  // ---------------------------------------------------------------------

  /** Names start with a dollar sign, none is defined twice, and no name is behind a shorter one. */
  ghost predicate Ordered(symbols: seq<Symbol>) {
    && (forall i :: 0 <= i < |symbols| ==> "$" <= symbols[i].name)
    && (forall i, j :: 0 <= i < j < |symbols| ==> symbols[i].name != symbols[j].name)
    && (forall i, j :: 0 <= i < j < |symbols| ==> |symbols[i].name| >= |symbols[j].name|)
  }

  function Definitions(symbols: seq<Symbol>): map<string, string> {
    if symbols == [] then map[]
    else Definitions(symbols[..|symbols| - 1])[symbols[|symbols| - 1].name := symbols[|symbols| - 1].value]
  }

  /** No name twice. */
  ghost predicate Distinct(symbols: seq<Symbol>) {
    forall i, j :: 0 <= i < j < |symbols| ==> symbols[i].name != symbols[j].name
  }

  lemma {:induction false} Defines(symbols: seq<Symbol>, name: string)
    requires Distinct(symbols)
    ensures forall i :: 0 <= i < |symbols| ==>
              symbols[i].name in Definitions(symbols) && Definitions(symbols)[symbols[i].name] == symbols[i].value
    ensures name in Definitions(symbols) ==> exists i :: 0 <= i < |symbols| && symbols[i].name == name
  {
    if symbols != [] {
      var init := symbols[..|symbols| - 1];
      Defines(init, name);
      forall i | 0 <= i < |symbols| - 1
        ensures symbols[i] == init[i]
      {
      }
    }
  }

  /** Two lists of the same distinct symbols define the same. */
  lemma DefinitionsOfSame(a: seq<Symbol>, b: seq<Symbol>)
    requires Distinct(a) && Distinct(b)
    requires forall s :: s in a <==> s in b
    ensures Definitions(a) == Definitions(b)
  {
    forall name
      ensures name in Definitions(a) <==> name in Definitions(b)
      ensures name in Definitions(a) && name in Definitions(b) ==> Definitions(a)[name] == Definitions(b)[name]
    {
      Defines(a, name);
      Defines(b, name);
      assert forall i :: 0 <= i < |a| ==> a[i] in b;
      assert forall i :: 0 <= i < |b| ==> b[i] in a;
    }
  }

  // ---------------------------------------------------------------------
  // Expansion, without a list
  // ---------------------------------------------------------------------

  /** The longest prefix of at most n characters that is a defined name. */
  function Longest(defs: map<string, string>, rest: string, n: nat): (k: nat)
    requires n <= |rest|
    ensures k <= n && (k > 0 ==> rest[..k] in defs)
    ensures forall m :: k < m <= n ==> rest[..m] !in defs
  {
    if n == 0 || rest[..n] in defs then n else Longest(defs, rest, n - 1)
  }

  /** A backslash that is not itself behind a backslash. */
  predicate EndsInEscape(done: string) {
    |done| > 0 && done[|done| - 1] == '\\' && (|done| == 1 || done[|done| - 2] != '\\')
  }

  /** What is written for the start of rest, and how much of rest that reads. */
  function Piece(defs: map<string, string>, done: string, rest: string): (p: (string, nat))
    requires rest != ""
    ensures 1 <= p.1 <= |rest|
  {
    if rest[0] != '$' || EndsInEscape(done) then (rest[..1], 1)
    else if |rest| > 1 && rest[1] == '$' then ("$", 2)
    else
      var n := Longest(defs, rest, |rest|);
      if n == 0 then ("$", 1) else (defs[rest[..n]], n)
  }

  /**
   * The text with its variables replaced, from left to right: done is what was
   * written already, rest what is still to be read. What is put in for a name
   * goes to done, and is not read again.
   */
  function Expand(defs: map<string, string>, done: string, rest: string): string
    decreases |rest|
  {
    if rest == "" then done
    else var p := Piece(defs, done, rest); Expand(defs, done + p.0, rest[p.1..])
  }

  /** Equal, or equal as far as the expansion looks back. */
  predicate Alike(a: string, b: string) {
    a == b || (|a| >= 2 && |b| >= 2 && a[|a| - 2..] == b[|b| - 2..])
  }

  lemma AlikeAppend(a: string, b: string, t: string)
    requires Alike(a, b)
    ensures Alike(a + t, b + t) && EndsInEscape(a) == EndsInEscape(b)
  {
    if a != b {
      assert a[|a| - 1] == a[|a| - 2..][1] && a[|a| - 2] == a[|a| - 2..][0];
      assert b[|b| - 1] == b[|b| - 2..][1] && b[|b| - 2] == b[|b| - 2..][0];
      var u, v := a + t, b + t;
      assert u[|u| - 2..] == v[|v| - 2..];
    }
  }

  lemma PieceIsSame(defs: map<string, string>, a: string, b: string, rest: string)
    requires Alike(a, b) && rest != ""
    ensures Piece(defs, a, rest) == Piece(defs, b, rest)
  {
    AlikeAppend(a, b, "");
    hide EndsInEscape, Longest;
  }

  /** What was written stays, and what follows does not depend on it beyond its last two characters. */
  lemma {:induction false} WrittenTextIsNotRead(defs: map<string, string>, a: string, b: string, rest: string)
    returns (added: string)
    requires Alike(a, b)
    ensures Expand(defs, a, rest) == a + added && Expand(defs, b, rest) == b + added
    decreases |rest|
  {
    if rest == "" {
      added := "";
    } else {
      PieceIsSame(defs, a, b, rest);
      hide Piece, Alike;
      var p := Piece(defs, a, rest);
      AlikeAppend(a, b, p.0);
      var more := WrittenTextIsNotRead(defs, a + p.0, b + p.0, rest[p.1..]);
      added := p.0 + more;
    }
  }

  // ---------------------------------------------------------------------
  // What becomes of each dollar
  // ---------------------------------------------------------------------

  /** Text without a dollar is copied. */
  lemma {:induction false} PlainIsCopied(defs: map<string, string>, done: string, text: string, rest: string)
    requires '$' !in text
    ensures Expand(defs, done, text + rest) == Expand(defs, done + text, rest)
    decreases |text|
  {
    if text == "" {
      assert text + rest == rest && done + text == done;
    } else {
      assert text[0] in text && (text + rest)[0] == text[0];
      assert (text + rest)[..1] == text[..1] && (text + rest)[1..] == text[1..] + rest;
      assert done + text == done + text[..1] + text[1..];
      PlainIsCopied(defs, done + text[..1], text[1..], rest);
    }
  }

  /** A dollar behind a single backslash is copied, whatever follows it. */
  lemma EscapedDollarStays(defs: map<string, string>, done: string, rest: string)
    requires |done| >= 1 && done[|done| - 1] == '\\' && (|done| == 1 || done[|done| - 2] != '\\')
    ensures Expand(defs, done, "$" + rest) == Expand(defs, done + "$", rest)
  {
    assert ("$" + rest)[..1] == "$" && ("$" + rest)[1..] == rest;
  }

  /** No backslash, or two of them, before what is read next. */
  ghost predicate Unescaped(done: string) {
    done == "" || done[|done| - 1] != '\\' || (|done| > 1 && done[|done| - 2] == '\\')
  }

  /** Of two dollars one is left, and it starts no name. */
  lemma DoubledDollarIsOne(defs: map<string, string>, done: string, rest: string)
    requires Unescaped(done)
    ensures Expand(defs, done, "$$" + rest) == Expand(defs, done + "$", rest)
  {
    assert ("$$" + rest)[2..] == rest && ("$$" + rest)[0] == '$' && ("$$" + rest)[1] == '$';
  }

  /** The value takes the place of the longest name defined there, and is not read again. */
  lemma NameBecomesValue(defs: map<string, string>, done: string, name: string, rest: string)
    requires Unescaped(done) && "$" <= name && name in defs
    requires !("$$" <= name + rest)
    requires forall other :: other in defs && other <= name + rest ==> |other| <= |name|
    ensures Expand(defs, done, name + rest) == Expand(defs, done + defs[name], rest)
  {
    var all := name + rest;
    var n := Longest(defs, all, |all|);
    assert all[..|name|] == name && all[|name|..] == rest && all[0] == '$';
    if n > 0 {
      assert all[..n] <= all;
    }
    assert n == |name|;
    if |all| > 1 {
      assert all[1] == '$' ==> "$$" <= all;
    }
  }

  /** With no name defined there the dollar is copied. */
  lemma LoneDollarStays(defs: map<string, string>, done: string, rest: string)
    requires Unescaped(done) && !("$" <= rest)
    requires forall name :: name in defs && name != "" ==> !(name <= "$" + rest)
    ensures Expand(defs, done, "$" + rest) == Expand(defs, done + "$", rest)
  {
    var all := "$" + rest;
    var n := Longest(defs, all, |all|);
    assert all[..n] <= all;
    assert n == 0;
    assert all[1..] == rest && all[..1] == "$";
    if |all| > 1 {
      assert all[1] == rest[0];
    }
  }

  // ---------------------------------------------------------------------
  // The first symbol that matches
  // ---------------------------------------------------------------------

  function FirstMatch(symbols: seq<Symbol>, rest: string): (i: nat)
    ensures i <= |symbols| && (i < |symbols| ==> symbols[i].name <= rest)
    ensures forall j :: 0 <= j < i ==> !(symbols[j].name <= rest)
  {
    if symbols == [] || symbols[0].name <= rest then 0 else 1 + FirstMatch(symbols[1..], rest)
  }

  /** In an ordered list the first match is the longest defined name. */
  lemma FirstMatchIsLongest(symbols: seq<Symbol>, rest: string)
    requires Ordered(symbols)
    ensures var i, n := FirstMatch(symbols, rest), Longest(Definitions(symbols), rest, |rest|);
            && (i == |symbols| <==> n == 0)
            && (i < |symbols| ==> symbols[i].name == rest[..n] && symbols[i].value == Definitions(symbols)[rest[..n]])
  {
    var i, n := FirstMatch(symbols, rest), Longest(Definitions(symbols), rest, |rest|);
    Defines(symbols, rest[..n]);
    if i < |symbols| {
      assert rest[..|symbols[i].name|] == symbols[i].name;
      assert rest[..|symbols[i].name|] in Definitions(symbols);
    }
    if n > 0 {
      var j :| 0 <= j < |symbols| && symbols[j].name == rest[..n];
      assert symbols[j].name <= rest;
    }
  }

  // ---------------------------------------------------------------------
  // The symbol list in memory
  // ---------------------------------------------------------------------

  class Variable {
    const name: string
    var value: string

    constructor (name: string)
      ensures this.name == name
    {
      this.name, value := name, "";
    }
  }

  ghost predicate LongestFirst(vs: seq<Variable>) {
    forall i, j :: 0 <= i < j < |vs| ==> |vs[i].name| >= |vs[j].name|
  }

  /** A list of the same distinct objects. */
  ghost predicate SameObjects(a: seq<Variable>, b: seq<Variable>) {
    NoDuplicates(a) && NoDuplicates(b) && (forall v :: v in a ==> v in b) && (forall v :: v in b ==> v in a)
  }

  /** Stands for qsort with compare_set_qsort: some order with the longest names first. */
  method QSort(vs: seq<Variable>) returns (sorted: seq<Variable>)
    requires NoDuplicates(vs)
    ensures SameObjects(vs, sorted) && LongestFirst(sorted)
  {
    sorted := [];
    for i := 0 to |vs|
      invariant SameObjects(vs[..i], sorted) && LongestFirst(sorted)
    {
      sorted := InsertLongest(sorted, vs[i]);
      assert vs[..i + 1] == vs[..i] + [vs[i]];
    }
    assert vs[..|vs|] == vs;
  }

  method InsertLongest(vs: seq<Variable>, v: Variable) returns (sorted: seq<Variable>)
    requires LongestFirst(vs) && NoDuplicates(vs) && v !in vs
    ensures LongestFirst(sorted) && NoDuplicates(sorted)
    ensures v in sorted && forall w :: w in sorted <==> w == v || w in vs
  {
    var k: nat := 0;
    while k < |vs| && |vs[k].name| >= |v.name|
      invariant k <= |vs|
      invariant forall j :: 0 <= j < k ==> |vs[j].name| >= |v.name|
    {
      k := k + 1;
    }
    sorted := Insert(vs, k, v);
    InsertedLongest(vs, k, v);
    InsertKeepsNoDuplicates(vs, k, v);
    forall w
      ensures w in sorted <==> w == v || w in vs
    {
      InsertMembers(vs, k, v, w);
    }
  }

  lemma InsertedLongest(vs: seq<Variable>, k: nat, v: Variable)
    requires LongestFirst(vs) && k <= |vs|
    requires forall j :: 0 <= j < k ==> |vs[j].name| >= |v.name|
    requires k < |vs| ==> |vs[k].name| < |v.name|
    ensures LongestFirst(Insert(vs, k, v))
  {
  }

  class SymbolTable {
    var symbols: seq<Variable>

    ghost function Values(): (values: seq<Symbol>)
      reads this, symbols
      ensures |values| == |symbols|
      ensures forall i :: 0 <= i < |values| ==> values[i] == Symbol(symbols[i].name, symbols[i].value)
    {
      seq(|symbols|, i requires 0 <= i < |symbols| reads this, symbols => Symbol(symbols[i].name, symbols[i].value))
    }

    ghost predicate Valid()
      reads this, symbols
    {
      Ordered(Values())
    }

    /** What is defined, and as what. */
    ghost function Defined(): map<string, string>
      reads this, symbols
    {
      Definitions(Values())
    }

    constructor ()
      ensures Valid() && Defined() == map[]
    {
      symbols := [];
    }

    /** do_var_replacement. */
    method DoVarReplacement(text: string) returns (str: string)
      requires Valid()
      ensures str == Expand(Defined(), "", text)
    {
      str := text;
      var find: nat := 0;
      while find < |str|
        invariant find <= |str|
        invariant Expand(Defined(), str[..find], str[find..]) == Expand(Defined(), "", text)
        decreases |str| - find
      {
        find, str := ExpandOne(str, find);
      }
    }

    /** One round of the loop, with the characters that strchr skips taken one by one. */
    method ExpandOne(str: string, find: nat) returns (next: nat, out: string)
      requires Valid() && find < |str|
      ensures next <= |out|
      ensures var p := Piece(Defined(), str[..find], str[find..]);
              out[..next] == str[..find] + p.0 && out[next..] == str[find..][p.1..]
    {
      hide Definitions, Longest;
      out := str;
      next := find + 1;
      if str[find] != '$' {
        return;
      }
      if find > 0 && str[find - 1] == '\\' && (find == 1 || str[find - 2] != '\\') {
        return;
      }
      if find + 1 < |str| && str[find + 1] == '$' {
        out := str[..find] + str[find + 1..];
        return;
      }
      next, out := ExpandName(str, find);
    }

    /** Puts in the value of the first symbol that matches. */
    method ExpandName(str: string, find: nat) returns (next: nat, out: string)
      requires Valid() && find < |str|
      ensures next <= |out|
      ensures var rest := str[find..];
              var n := Longest(Defined(), rest, |rest|);
              if n == 0 then next == find + 1 && out == str
              else out[..next] == str[..find] + Defined()[rest[..n]] && out[next..] == rest[n..]
    {
      hide Definitions, Longest, FirstMatch, Ordered;
      out := str;
      next := find + 1;
      FirstMatchIsLongest(Values(), str[find..]);
      var i := FindSymbol(str[find..]);
      if i < |symbols| {
        var name, value := symbols[i].name, symbols[i].value;
        assert name == Values()[i].name && value == Values()[i].value;
        out := str[..find] + value + str[find..][|name|..];
        next := find + |value|;
      }
    }

    method FindSymbol(rest: string) returns (i: nat)
      ensures i == FirstMatch(Values(), rest)
    {
      i := 0;
      while i < |symbols| && !(symbols[i].name <= rest)
        invariant i <= |symbols|
        invariant FirstMatch(Values(), rest) == i + FirstMatch(Values()[i..], rest)
      {
        assert Values()[i..][1..] == Values()[i + 1..];
        i := i + 1;
      }
    }

    /** cmd_set: whether the arguments are a definition, and what is defined then. */
    method CmdSet(argv: seq<string>) returns (ok: bool)
      requires Valid()
      modifies this, symbols
      ensures Valid()
      ensures ok <==> |argv| >= 2 && "$" <= argv[0]
      ensures Defined() == if ok then old(Defined())[argv[0] := Join(argv[1..])] else old(Defined())
    {
      if |argv| < 2 || argv[0] == "" || argv[0][0] != '$' {
        return false;
      }
      ok := true;
      var name := argv[0];
      var buffer := JoinArgs(argv[1..]);
      var value := buffer[..buffer.Length - 1];
      var i := FindName(name);
      if i < |symbols| {
        Redefine(i, value);
      } else {
        Define(name, value);
      }
    }

    method FindName(name: string) returns (i: nat)
      ensures i <= |symbols| && (i < |symbols| ==> symbols[i].name == name)
      ensures forall j :: 0 <= j < i ==> symbols[j].name != name
    {
      i := 0;
      while i < |symbols| && symbols[i].name != name
        invariant i <= |symbols|
        invariant forall j :: 0 <= j < i ==> symbols[j].name != name
      {
        i := i + 1;
      }
    }

    /** Gives a variable that is there another value, in place. */
    method Redefine(i: nat, value: string)
      requires Valid() && i < |symbols|
      modifies symbols[i]
      ensures Valid() && Defined() == old(Defined())[symbols[i].name := value]
    {
      ghost var before := Values();
      symbols[i].value := value;
      assert forall j :: 0 <= j < |symbols| && j != i ==> before[j].name != before[i].name && symbols[j] != symbols[i];
      assert Values() == before[i := Symbol(before[i].name, value)];
      DefinitionsUpdate(before, i, value);
    }

    /** Adds a variable, and sorts the list again. */
    method Define(name: string, value: string)
      requires Valid() && "$" <= name && forall j :: 0 <= j < |symbols| ==> symbols[j].name != name
      modifies this
      ensures Valid() && Defined() == old(Defined())[name := value]
    {
      var v := new Variable(name);
      v.value := value;
      ghost var before := Values();
      ghost var added := symbols + [v];
      var sorted := QSort(symbols + [v]);
      symbols := sorted;
      SortedIsOrdered(before + [Symbol(name, value)], Values(), added, sorted);
      assert (before + [Symbol(name, value)])[..|before|] == before;
    }
  }

  lemma {:induction false} DefinitionsUpdate(symbols: seq<Symbol>, i: nat, value: string)
    requires Distinct(symbols) && i < |symbols|
    ensures Definitions(symbols[i := Symbol(symbols[i].name, value)]) == Definitions(symbols)[symbols[i].name := value]
  {
    var last := |symbols| - 1;
    var init, updated := symbols[..last], symbols[i := Symbol(symbols[i].name, value)];
    if i < last {
      DefinitionsUpdate(init, i, value);
      assert updated[..last] == init[i := Symbol(symbols[i].name, value)];
      assert symbols[last].name != symbols[i].name;
    } else {
      assert updated[..last] == init;
    }
  }

  /** Sorting the objects of a list with distinct names, longest first, orders it and defines the same. */
  lemma SortedIsOrdered(before: seq<Symbol>, after: seq<Symbol>, added: seq<Variable>, sorted: seq<Variable>)
    requires |before| == |added| && |after| == |sorted| && Distinct(before)
    requires forall i :: 0 <= i < |before| ==> "$" <= before[i].name
    requires SameObjects(added, sorted) && LongestFirst(sorted)
    requires forall i :: 0 <= i < |sorted| ==> after[i].name == sorted[i].name
    requires forall i :: 0 <= i < |added| ==> before[i].name == added[i].name
    requires forall i, j :: 0 <= i < |added| && 0 <= j < |sorted| && added[i] == sorted[j] ==> before[i] == after[j]
    ensures Ordered(after) && Definitions(after) == Definitions(before)
  {
    hide LongestFirst, Definitions;
    SameSymbols(before, after, added, sorted);
    SortedIsDistinct(before, after, added, sorted);
    NamesShrink(after, sorted);
    DefinitionsOfSame(before, after);
    assert forall i :: 0 <= i < |after| ==> after[i] in before;
  }

  lemma SameSymbols(before: seq<Symbol>, after: seq<Symbol>, added: seq<Variable>, sorted: seq<Variable>)
    requires |before| == |added| && |after| == |sorted| && SameObjects(added, sorted)
    requires forall i, j :: 0 <= i < |added| && 0 <= j < |sorted| && added[i] == sorted[j] ==> before[i] == after[j]
    ensures forall s :: s in before <==> s in after
  {
    forall j | 0 <= j < |sorted|
      ensures after[j] in before
    {
      assert sorted[j] in added;
    }
    forall i | 0 <= i < |added|
      ensures before[i] in after
    {
      assert added[i] in sorted;
    }
  }

  lemma SortedIsDistinct(before: seq<Symbol>, after: seq<Symbol>, added: seq<Variable>, sorted: seq<Variable>)
    requires |before| == |added| && |after| == |sorted| && SameObjects(added, sorted) && Distinct(before)
    requires forall i :: 0 <= i < |sorted| ==> after[i].name == sorted[i].name
    requires forall i :: 0 <= i < |added| ==> before[i].name == added[i].name
    ensures Distinct(after)
  {
    forall i, j | 0 <= i < j < |after|
      ensures after[i].name != after[j].name
    {
      assert sorted[i] in added && sorted[j] in added;
    }
  }

  lemma NamesShrink(after: seq<Symbol>, sorted: seq<Variable>)
    requires |after| == |sorted| && LongestFirst(sorted)
    requires forall i :: 0 <= i < |sorted| ==> after[i].name == sorted[i].name
    ensures forall i, j :: 0 <= i < j < |after| ==> |after[i].name| >= |after[j].name|
  {
  }
}
