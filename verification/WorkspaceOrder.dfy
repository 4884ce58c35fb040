/**
 * The root's list of workspaces: numbered ones first, in order of their number,
 * then the others, ties in order of creation, and the active one always there.
 */
module WorkspaceOrder {
  import opened Seqs
  import opened StableSort
  import Lists

  const LONG_MAX: int := 0x7fff_ffff_ffff_ffff

  /** Workspaces are told apart by id; ids count up as workspaces are created. */
  datatype Workspace = Workspace(id: nat, name: string)

  predicate IsDigit(c: char) { '0' <= c <= '9' }

  predicate Numbered(w: Workspace) { w.name != "" && IsDigit(w.name[0]) }

  /** The value of the digits that s starts with. */
  function LeadingNumber(s: string, sofar: nat): nat
    decreases |s|
  {
    if s == "" || !IsDigit(s[0]) then sofar
    else LeadingNumber(s[1..], 10 * sofar + (s[0] - '0') as nat)
  }

  /** What assigning a 64-bit long to a 32-bit int keeps of it. */
  function Truncate(v: int): int { (v + 0x8000_0000) % 0x1_0000_0000 - 0x8000_0000 }

  /** strtol stops at LONG_MAX; the comparator keeps its result in an int. */
  function Number(w: Workspace): int {
    var n := LeadingNumber(w.name, 0);
    Truncate(if n > LONG_MAX then LONG_MAX else n)
  }

  function CompareWorkspaces(a: Workspace, b: Workspace): int {
    if Numbered(a) && Numbered(b) then
      if Number(a) < Number(b) then -1 else if Number(a) > Number(b) then 1 else 0
    else if Numbered(a) then -1
    else if Numbered(b) then 1
    else 0
  }

  lemma CompareIsPreorder()
    ensures TotalPreorder(CompareWorkspaces)
  {
  }

  datatype Root = Root(workspaces: seq<Workspace>, active: Option<Workspace>, occupied: set<Workspace>, nextId: nat)

  /** occupied: the workspaces that have a column or a floating window. */
  function ConsiderDestroy(r: Root, w: Workspace): Root {
    if w !in r.workspaces || w in r.occupied || r.active == Some(w) then r
    else r.(workspaces := Remove(r.workspaces, w))
  }

  function SetActive(r: Root, w: Workspace): Root {
    if r.active == Some(w) then r
    else
      var r' := r.(active := Some(w));
      if r.active.Some? then ConsiderDestroy(r', r.active.value) else r'
  }

  function Create(r: Root, name: string): Root {
    var w := Workspace(r.nextId, name);
    var r' := r.(workspaces := Sort(r.workspaces + [w], CompareWorkspaces), nextId := r.nextId + 1);
    if r.active == None then SetActive(r', w) else r'
  }

  datatype Event =
    | Created(name: string)
    | Switched(target: Workspace)
    | Filled(filled: Workspace)           // gains its first column or floating window
    | Emptied(emptied: Workspace)         // loses its last one, and is considered for destruction

  function Step(r: Root, e: Event): Root {
    match e
    case Created(name) => Create(r, name)
    case Switched(w) => if w in r.workspaces then SetActive(r, w) else r
    case Filled(w) => r.(occupied := r.occupied + {w})
    case Emptied(w) => ConsiderDestroy(r.(occupied := r.occupied - {w}), w)
  }

  function Run(es: seq<Event>): Root
    decreases |es|
  {
    if es == [] then Root([], None, {}, 0) else Step(Run(es[..|es| - 1]), es[|es| - 1])
  }

  // ---------------------------------------------------------------------
  // The order
  // ---------------------------------------------------------------------

  /** a may stand anywhere before b. */
  predicate Before(a: Workspace, b: Workspace) {
    CompareWorkspaces(a, b) < 0 || (CompareWorkspaces(a, b) == 0 && a.id < b.id)
  }

  ghost predicate Ordered(s: seq<Workspace>) {
    forall i, j :: 0 <= i < j < |s| ==> Before(s[i], s[j])
  }

  ghost predicate Ascending(s: seq<Workspace>) {
    forall i, j :: 0 <= i < j < |s| ==> s[i].id < s[j].id
  }

  lemma {:induction false} TiesAscend(s: seq<Workspace>, x: Workspace)
    requires Ordered(s)
    ensures Ascending(Ties(s, x, CompareWorkspaces))
  {
    if s != [] {
      TiesAscend(s[1..], x);
      var rest := Ties(s[1..], x, CompareWorkspaces);
      forall j | 0 <= j < |rest| && CompareWorkspaces(s[0], x) == 0 ensures s[0].id < rest[j].id {
        TieOccurs(s[1..], x, rest[j], CompareWorkspaces);
      }
    }
  }

  lemma {:induction false} OccursInTies(s: seq<Workspace>, i: nat, x: Workspace)
    requires i < |s| && CompareWorkspaces(s[i], x) == 0
    ensures s[i] in Ties(s, x, CompareWorkspaces)
  {
    if i > 0 {
      OccursInTies(s[1..], i - 1, x);
    }
  }

  lemma {:induction false} OrderedFromTies(s: seq<Workspace>)
    requires Sorted(s, CompareWorkspaces)
    requires forall x :: Ascending(Ties(s, x, CompareWorkspaces))
    ensures Ordered(s)
  {
    if s != [] {
      forall x ensures Ascending(Ties(s[1..], x, CompareWorkspaces)) {
        var all, rest := Ties(s, x, CompareWorkspaces), Ties(s[1..], x, CompareWorkspaces);
        assert all == rest || all[1..] == rest;
      }
      OrderedFromTies(s[1..]);
      forall j | 0 < j < |s| ensures Before(s[0], s[j]) {
        if CompareWorkspaces(s[0], s[j]) == 0 {
          OccursInTies(s[1..], j - 1, s[j]);
          var ties := Ties(s, s[j], CompareWorkspaces);
          assert ties == [s[0]] + Ties(s[1..], s[j], CompareWorkspaces);
          var k :| 0 <= k < |ties| - 1 && ties[1..][k] == s[j];
          assert ties[0].id < ties[k + 1].id;
        }
      }
    }
  }

  lemma NewTiesAscend(s: seq<Workspace>, w: Workspace, x: Workspace)
    requires Ordered(s) && forall v :: v in s ==> v.id < w.id
    ensures Ascending(Ties(s + [w], x, CompareWorkspaces))
  {
    TiesConcat(s, [w], x, CompareWorkspaces);
    TiesAscend(s, x);
    forall v | v in Ties(s, x, CompareWorkspaces)
      ensures v.id < w.id
    {
      TieOccurs(s, x, v, CompareWorkspaces);
    }
    assert Ties([w], x, CompareWorkspaces) == [w] || Ties([w], x, CompareWorkspaces) == [];
  }

  /** Appending the newest workspace and sorting stably keeps the order. */
  lemma CreateKeepsOrder(s: seq<Workspace>, w: Workspace)
    requires Ordered(s) && forall v :: v in s ==> v.id < w.id
    ensures Ordered(Sort(s + [w], CompareWorkspaces))
  {
    hide Ties, Sort, Ascending, Sorted, TotalPreorder, Ordered;
    CompareIsPreorder();
    SortSorted(s + [w], CompareWorkspaces);
    forall x
      ensures Ascending(Ties(Sort(s + [w], CompareWorkspaces), x, CompareWorkspaces))
    {
      SortStable(s + [w], x, CompareWorkspaces);
      NewTiesAscend(s, w, x);
    }
    OrderedFromTies(Sort(s + [w], CompareWorkspaces));
  }

  lemma RemoveKeepsOrder(s: seq<Workspace>, w: Workspace)
    requires Ordered(s)
    ensures Ordered(Remove(s, w))
    ensures forall v :: v in Remove(s, w) <==> v in s && v != w
  {
    OrderedIsDistinct(s);
    forall v
      ensures v in Remove(s, w) <==> v in s && v != w
    {
      RemoveMembers(s, w, v);
    }
  }

  lemma OrderedIsDistinct(s: seq<Workspace>)
    requires Ordered(s)
    ensures NoDuplicates(s)
  {
    forall i, j | 0 <= i < j < |s|
      ensures s[i] != s[j]
    {
      assert Before(s[i], s[j]);
    }
  }

  ghost predicate Inv(r: Root) {
    && Ordered(r.workspaces)
    && (forall w :: w in r.workspaces ==> w.id < r.nextId)
    && (r.workspaces != [] ==> r.active.Some?)
    && (r.active.Some? ==> r.active.value in r.workspaces)
  }

  lemma ConsiderDestroyKeeps(r: Root, w: Workspace)
    requires Inv(r)
    ensures Inv(ConsiderDestroy(r, w))
  {
    RemoveKeepsOrder(r.workspaces, w);
  }

  lemma SetActiveKeeps(r: Root, w: Workspace)
    requires Inv(r.(active := Some(w)))
    ensures Inv(SetActive(r, w))
  {
    if r.active.Some? {
      ConsiderDestroyKeeps(r.(active := Some(w)), r.active.value);
    }
  }

  lemma SortHasSame(s: seq<Workspace>)
    ensures forall v :: v in Sort(s, CompareWorkspaces) <==> v in s
  {
    SortPermutes(s, CompareWorkspaces);
    forall v ensures v in Sort(s, CompareWorkspaces) <==> v in s {
      assert v in Sort(s, CompareWorkspaces) <==> v in multiset(Sort(s, CompareWorkspaces));
      assert v in s <==> v in multiset(s);
    }
  }

  lemma StepKeeps(r: Root, e: Event)
    requires Inv(r)
    ensures Inv(Step(r, e))
  {
    match e
    case Created(name) =>
      var w := Workspace(r.nextId, name);
      CreateKeepsOrder(r.workspaces, w);
      SortHasSame(r.workspaces + [w]);
      if r.active == None {
        SetActiveKeeps(r.(workspaces := Sort(r.workspaces + [w], CompareWorkspaces), nextId := r.nextId + 1), w);
      }
    case Switched(w) => if w in r.workspaces { SetActiveKeeps(r, w); }
    case Filled(w) =>
    case Emptied(w) => ConsiderDestroyKeeps(r.(occupied := r.occupied - {w}), w);
  }

  lemma {:induction false} RunKeeps(es: seq<Event>)
    ensures Inv(Run(es))
    decreases |es|
  {
    if es != [] {
      RunKeeps(es[..|es| - 1]);
      StepKeeps(Run(es[..|es| - 1]), es[|es| - 1]);
    }
  }

  /** What every run leaves: numbered workspaces first by number, ties by age, the active one present. */
  lemma EveryRunIsOrdered(es: seq<Event>)
    ensures var r := Run(es);
            && (forall i, j :: 0 <= i < j < |r.workspaces| && Numbered(r.workspaces[j]) ==>
                  Numbered(r.workspaces[i]) && Number(r.workspaces[i]) <= Number(r.workspaces[j]))
            && (forall i, j :: 0 <= i < j < |r.workspaces| && CompareWorkspaces(r.workspaces[i], r.workspaces[j]) == 0
                  ==> r.workspaces[i].id < r.workspaces[j].id)
            && (r.workspaces == [] <==> r.active == None)
            && (r.active.Some? ==> r.active.value in r.workspaces)
  {
    RunKeeps(es);
    var s := Run(es).workspaces;
    assert forall i, j :: 0 <= i < j < |s| ==> Before(s[i], s[j]);
  }

  /** A workspace that is created is in the list, with all that were, and shows only if none was there. */
  lemma CreatedIsListed(r: Root, name: string)
    requires Inv(r)
    ensures var w, r' := Workspace(r.nextId, name), Create(r, name);
            && (forall v :: v in r'.workspaces <==> v == w || v in r.workspaces)
            && r'.active == if r.active.None? then Some(w) else r.active
  {
    SortHasSame(r.workspaces + [Workspace(r.nextId, name)]);
    hide Sort;
  }

  // ---------------------------------------------------------------------
  // Numbers in names
  // ---------------------------------------------------------------------

  function Digit(d: nat): char
    requires d < 10
  {
    "0123456789"[d]
  }

  /** A number as it is written. */
  function Decimal(n: nat): string {
    (if n < 10 then "" else Decimal(n / 10)) + [Digit(n % 10)]
  }

  lemma {:induction false} LeadingOfDecimal(n: nat, rest: string)
    ensures LeadingNumber(Decimal(n) + rest, 0) == LeadingNumber(rest, n)
    ensures Decimal(n) != "" && IsDigit(Decimal(n)[0])
    decreases n
  {
    var last := [Digit(n % 10)];
    assert (last + rest)[1..] == rest;
    assert LeadingNumber(last + rest, n / 10) == LeadingNumber(rest, n);
    if n < 10 {
      assert Decimal(n) + rest == last + rest;
    } else {
      LeadingOfDecimal(n / 10, last + rest);
      assert Decimal(n) + rest == Decimal(n / 10) + (last + rest);
    }
  }

  /**
   * A workspace whose name starts with a number, written out, is ordered by that
   * number if and only if it fits a C int; a larger one is cut off at a long and
   * then wraps around.
   */
  lemma NamedByNumber(id: nat, n: nat, rest: string)
    requires rest == "" || !IsDigit(rest[0])
    ensures var w := Workspace(id, Decimal(n) + rest);
            Numbered(w) && (Number(w) == n <==> n <= 0x7fff_ffff)
  {
    LeadingOfDecimal(n, rest);
  }

  lemma NumberOfDecimal(id: nat, n: nat)
    requires n <= LONG_MAX
    ensures var w := Workspace(id, Decimal(n)); Numbered(w) && Number(w) == Truncate(n)
  {
    LeadingOfDecimal(n, "");
    assert LeadingNumber("", n) == n;
    hide Decimal, LeadingNumber, Truncate;
    assert Decimal(n) + "" == Decimal(n);
  }

  lemma TruncateIs(n: nat)
    ensures n <= 0x7fff_ffff ==> Truncate(n) == n
    ensures 0x8000_0000 <= n <= 0xffff_ffff ==> Truncate(n) < 0
  {
  }

  /** So those named by the numbers right beyond that come before those named by a number that fits. */
  lemma LargeNumbersComeFirst(large: nat, small: nat, a: nat, b: nat)
    requires 0x8000_0000 <= large <= 0xffff_ffff && small <= 0x7fff_ffff
    ensures CompareWorkspaces(Workspace(a, Decimal(large)), Workspace(b, Decimal(small))) < 0
  {
    hide Decimal, Number, Numbered, Truncate;
    NumberOfDecimal(a, large);
    NumberOfDecimal(b, small);
    TruncateIs(large);
    TruncateIs(small);
  }

  /** A workspace leaves the list exactly when it is empty and not active as it is considered. */
  lemma DestroyedIff(es: seq<Event>, w: Workspace)
    requires w in Run(es).workspaces
    ensures w !in ConsiderDestroy(Run(es), w).workspaces <==> w !in Run(es).occupied && Run(es).active != Some(w)
    ensures forall v :: v != w ==> (v in ConsiderDestroy(Run(es), w).workspaces <==> v in Run(es).workspaces)
  {
    RunKeeps(es);
    RemoveKeepsOrder(Run(es).workspaces, w);
  }

  // ---------------------------------------------------------------------
  // The root as it is written
  // ---------------------------------------------------------------------

  class RootList {
    const workspaces: Lists.List<Workspace>
    var active: Option<Workspace>
    var occupied: set<Workspace>
    var nextId: nat

    ghost predicate Valid()
      reads this, workspaces
    {
      workspaces.Valid()
    }

    ghost function Value(): Root
      requires Valid()
      reads this, workspaces, workspaces.items
    {
      Root(workspaces.Contents(), active, occupied, nextId)
    }

    constructor ()
      ensures Valid() && Value() == Run([]) && fresh(workspaces) && fresh(workspaces.items)
    {
      workspaces := new Lists.List();
      active, occupied, nextId := None, {}, 0;
    }

    method WorkspaceConsiderDestroy(w: Workspace)
      requires Valid()
      modifies this, workspaces, workspaces.items
      ensures Valid() && workspaces.items == old(workspaces.items)
      ensures Value() == ConsiderDestroy(old(Value()), w)
    {
      if w in occupied {
        return;
      }
      if active == Some(w) {
        return;
      }
      var index := workspaces.Find(w);
      if index != -1 {
        FirstIndex(workspaces.Contents(), index, w);
        workspaces.Delete(index);
      }
    }

    method SetActiveWorkspace(w: Workspace)
      requires Valid()
      modifies this, workspaces, workspaces.items
      ensures Valid() && workspaces.items == old(workspaces.items)
      ensures Value() == SetActive(old(Value()), w)
    {
      var previous := active;
      if previous == Some(w) {
        return;
      }
      active := Some(w);
      if previous.Some? {
        WorkspaceConsiderDestroy(previous.value);
      }
    }

    method WorkspaceCreate(name: string) returns (w: Workspace)
      requires Valid()
      modifies this, workspaces, workspaces.items
      ensures Valid() && (workspaces.items == old(workspaces.items) || fresh(workspaces.items))
      ensures w == Workspace(old(nextId), name) && Value() == Create(old(Value()), name)
    {
      hide Sort, TotalPreorder, ConsiderDestroy;
      w := Workspace(nextId, name);
      nextId := nextId + 1;
      workspaces.Add(w);
      CompareIsPreorder();
      var shifts := workspaces.StableSort(CompareWorkspaces);
      if active == None {
        SetActiveWorkspace(w);
      }
    }
  }

  lemma {:induction false} FirstIndex<T>(s: seq<T>, index: nat, x: T)
    requires index < |s| && s[index] == x && x !in s[..index]
    ensures IndexOf(s, x) == index
  {
    if index > 0 {
      assert s[0] in s[..index];
      assert s[1..][..index - 1] == s[..index][1..];
      FirstIndex(s[1..], index - 1, x);
    }
  }
}
