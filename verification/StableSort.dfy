/** The stable merge sort of src/list.c as functions on sequences, and what it guarantees. */
module StableSort {

  type Compare<!T> = (T, T) -> int

  /** compare is a total preorder, and its sign says which way. */
  ghost predicate TotalPreorder<T(!new)>(compare: Compare<T>) {
    && (forall x, y :: compare(x, y) > 0 <==> compare(y, x) < 0)
    && (forall x, y, z :: compare(x, y) <= 0 && compare(y, z) <= 0 ==> compare(x, z) <= 0)
  }

  ghost predicate Sorted<T>(s: seq<T>, compare: Compare<T>) {
    forall i, j :: 0 <= i < j < |s| ==> compare(s[i], s[j]) <= 0
  }

  function Merge<T>(l: seq<T>, r: seq<T>, compare: Compare<T>): (m: seq<T>)
    ensures |m| == |l| + |r|
    decreases |l| + |r|
  {
    if l == [] then r
    else if r == [] then l
    else if compare(l[0], r[0]) <= 0 then [l[0]] + Merge(l[1..], r, compare)
    else [r[0]] + Merge(l, r[1..], compare)
  }

  function Sort<T>(s: seq<T>, compare: Compare<T>): (m: seq<T>)
    ensures |m| == |s|
    decreases |s|
  {
    if |s| <= 1 then s
    else
      var k := (|s| - 1) / 2 + 1;
      Merge(Sort(s[..k], compare), Sort(s[k..], compare), compare)
  }

  /** The elements of s that compare equal to x, in their order in s. */
  ghost function Ties<T>(s: seq<T>, x: T, compare: Compare<T>): seq<T> {
    if s == [] then []
    else (if compare(s[0], x) == 0 then [s[0]] else []) + Ties(s[1..], x, compare)
  }

  lemma {:induction false} TiesConcat<T>(a: seq<T>, b: seq<T>, x: T, compare: Compare<T>)
    ensures Ties(a + b, x, compare) == Ties(a, x, compare) + Ties(b, x, compare)
  {
    if a == [] {
      assert a + b == b;
    } else {
      TiesConcat(a[1..], b, x, compare);
      assert (a + b)[1..] == a[1..] + b;
    }
  }

  lemma {:induction false} NoTies<T>(s: seq<T>, x: T, compare: Compare<T>)
    requires forall i :: 0 <= i < |s| ==> compare(s[i], x) != 0
    ensures Ties(s, x, compare) == []
  {
    if s != [] {
      NoTies(s[1..], x, compare);
    }
  }

  // ---------------------------------------------------------------------
  // Merging
  // ---------------------------------------------------------------------

  lemma {:induction false} MergePermutes<T>(l: seq<T>, r: seq<T>, compare: Compare<T>)
    ensures multiset(Merge(l, r, compare)) == multiset(l) + multiset(r)
    decreases |l| + |r|
  {
    if l == [] || r == [] {
    } else if compare(l[0], r[0]) <= 0 {
      MergePermutes(l[1..], r, compare);
      PrependCounts(l, Merge(l[1..], r, compare));
    } else {
      MergePermutes(l, r[1..], compare);
      PrependCounts(r, Merge(l, r[1..], compare));
    }
  }

  lemma PrependCounts<T>(s: seq<T>, t: seq<T>)
    requires s != []
    ensures multiset(s) == multiset{s[0]} + multiset(s[1..])
    ensures multiset([s[0]] + t) == multiset{s[0]} + multiset(t)
  {
    assert s == [s[0]] + s[1..];
  }

  lemma MergeFrom<T>(l: seq<T>, r: seq<T>, compare: Compare<T>, y: T)
    requires y in Merge(l, r, compare)
    ensures y in l || y in r
  {
    MergePermutes(l, r, compare);
    assert y in multiset(Merge(l, r, compare));
  }

  lemma PrependSorted<T>(head: T, rest: seq<T>, compare: Compare<T>)
    requires Sorted(rest, compare) && forall j :: 0 <= j < |rest| ==> compare(head, rest[j]) <= 0
    ensures Sorted([head] + rest, compare)
  {
  }

  lemma TailSorted<T>(s: seq<T>, compare: Compare<T>)
    requires Sorted(s, compare) && s != []
    ensures Sorted(s[1..], compare)
  {
  }

  lemma {:induction false} MergeSorted<T(!new)>(l: seq<T>, r: seq<T>, compare: Compare<T>)
    requires TotalPreorder(compare) && Sorted(l, compare) && Sorted(r, compare)
    ensures Sorted(Merge(l, r, compare), compare)
    decreases |l| + |r|
  {
    hide Sorted;
    if l != [] && r != [] {
      var fromLeft := compare(l[0], r[0]) <= 0;
      var head := if fromLeft then l[0] else r[0];
      var l', r' := if fromLeft then l[1..] else l, if fromLeft then r else r[1..];
      var rest := Merge(l', r', compare);
      TailSorted(if fromLeft then l else r, compare);
      MergeSorted(l', r', compare);
      forall j | 0 <= j < |rest| ensures compare(head, rest[j]) <= 0 {
        MergeFrom(l', r', compare, rest[j]);
        HeadLeast(l, rest[j], compare);
        HeadLeast(r, rest[j], compare);
      }
      PrependSorted(head, rest, compare);
    }
  }

  lemma HeadLeast<T(!new)>(s: seq<T>, y: T, compare: Compare<T>)
    requires TotalPreorder(compare) && Sorted(s, compare)
    ensures y in s ==> compare(s[0], y) <= 0
  {
  }

  /** If the head of a sorted run must come after y, so must all of it. */
  lemma RunAbove<T(!new)>(l: seq<T>, y: T, compare: Compare<T>)
    requires TotalPreorder(compare) && Sorted(l, compare) && l != [] && compare(l[0], y) > 0
    ensures forall i :: 0 <= i < |l| ==> compare(l[i], y) > 0
  {
    forall i | 0 <= i < |l| ensures compare(l[i], y) > 0 {
      HeadLeast(l, l[i], compare);
    }
  }

  lemma AboveIsNoTie<T(!new)>(z: T, y: T, x: T, compare: Compare<T>)
    requires TotalPreorder(compare) && compare(z, y) > 0 && compare(y, x) == 0
    ensures compare(z, x) != 0
  {
    assert compare(x, y) <= 0;
  }

  lemma TiesOfPrepend<T>(h: T, t: seq<T>, x: T, compare: Compare<T>)
    ensures Ties([h] + t, x, compare) == (if compare(h, x) == 0 then [h] else []) + Ties(t, x, compare)
  {
    assert ([h] + t)[1..] == t;
  }

  lemma Regroup<T>(p: seq<T>, a: seq<T>, b: seq<T>)
    ensures p + (a + b) == (p + a) + b && [] + b == b
  {
  }

  /** Merging sorted runs never reorders elements that compare equal. */
  lemma {:induction false} MergeStable<T(!new)>(l: seq<T>, r: seq<T>, x: T, compare: Compare<T>)
    requires TotalPreorder(compare) && Sorted(l, compare) && Sorted(r, compare)
    ensures Ties(Merge(l, r, compare), x, compare) == Ties(l, x, compare) + Ties(r, x, compare)
    decreases |l| + |r|
  {
    if l == [] || r == [] {
    } else if compare(l[0], r[0]) <= 0 {
      TailSorted(l, compare);
      MergeStable(l[1..], r, x, compare);
      MergeStableLeft(l, r, x, compare);
    } else {
      TailSorted(r, compare);
      MergeStable(l, r[1..], x, compare);
      MergeStableRight(l, r, x, compare);
    }
  }

  lemma MergeTakes<T>(l: seq<T>, r: seq<T>, compare: Compare<T>)
    requires l != [] && r != []
    ensures l == [l[0]] + l[1..] && r == [r[0]] + r[1..]
    ensures Merge(l, r, compare)
            == if compare(l[0], r[0]) <= 0 then [l[0]] + Merge(l[1..], r, compare) else [r[0]] + Merge(l, r[1..], compare)
  {
  }

  lemma MergeStableLeft<T>(l: seq<T>, r: seq<T>, x: T, compare: Compare<T>)
    requires l != [] && r != [] && compare(l[0], r[0]) <= 0
    requires Ties(Merge(l[1..], r, compare), x, compare) == Ties(l[1..], x, compare) + Ties(r, x, compare)
    ensures Ties(Merge(l, r, compare), x, compare) == Ties(l, x, compare) + Ties(r, x, compare)
  {
    var rest := Merge(l[1..], r, compare);
    var p := if compare(l[0], x) == 0 then [l[0]] else [];
    hide Ties, Merge;
    MergeTakes(l, r, compare);
    TiesOfPrepend(l[0], rest, x, compare);
    TiesOfPrepend(l[0], l[1..], x, compare);
    Regroup(p, Ties(l[1..], x, compare), Ties(r, x, compare));
  }

  lemma MergeStableRight<T(!new)>(l: seq<T>, r: seq<T>, x: T, compare: Compare<T>)
    requires TotalPreorder(compare) && Sorted(l, compare)
    requires l != [] && r != [] && compare(l[0], r[0]) > 0
    requires Ties(Merge(l, r[1..], compare), x, compare) == Ties(l, x, compare) + Ties(r[1..], x, compare)
    ensures Ties(Merge(l, r, compare), x, compare) == Ties(l, x, compare) + Ties(r, x, compare)
  {
    hide Ties, Merge, TotalPreorder, Sorted;
    var rest := Merge(l, r[1..], compare);
    MergeTakes(l, r, compare);
    var p := if compare(r[0], x) == 0 then [r[0]] else [];
    TiesOfPrepend(r[0], rest, x, compare);
    TiesOfPrepend(r[0], r[1..], x, compare);
    if compare(r[0], x) == 0 {
      NoTiesAbove(l, r[0], x, compare);
    }
    PutInFront(p, Ties(l, x, compare), Ties(r[1..], x, compare));
  }

  lemma PutInFront<T>(p: seq<T>, a: seq<T>, b: seq<T>)
    requires p == [] || a == []
    ensures p + (a + b) == a + (p + b)
  {
  }

  lemma NoTiesAbove<T(!new)>(l: seq<T>, y: T, x: T, compare: Compare<T>)
    requires TotalPreorder(compare) && Sorted(l, compare) && l != [] && compare(l[0], y) > 0 && compare(y, x) == 0
    ensures Ties(l, x, compare) == []
  {
    RunAbove(l, y, compare);
    forall i | 0 <= i < |l|
      ensures compare(l[i], x) != 0
    {
      AboveIsNoTie(l[i], y, x, compare);
    }
    NoTies(l, x, compare);
  }

  // ---------------------------------------------------------------------
  // Sorting
  // ---------------------------------------------------------------------

  lemma SortUnfolds<T>(s: seq<T>, compare: Compare<T>)
    ensures |s| <= 1 ==> Sort(s, compare) == s
    ensures |s| > 1 ==>
              var k := (|s| - 1) / 2 + 1;
              Sort(s, compare) == Merge(Sort(s[..k], compare), Sort(s[k..], compare), compare)
  {
  }

  lemma SplitCounts<T>(s: seq<T>, k: nat)
    requires k <= |s|
    ensures multiset(s) == multiset(s[..k]) + multiset(s[k..])
  {
    assert s == s[..k] + s[k..];
  }

  lemma {:induction false} SortPermutes<T>(s: seq<T>, compare: Compare<T>)
    ensures multiset(Sort(s, compare)) == multiset(s)
    decreases |s|
  {
    hide Merge, Sort;
    SortUnfolds(s, compare);
    if |s| > 1 {
      var k := (|s| - 1) / 2 + 1;
      SortPermutes(s[..k], compare);
      SortPermutes(s[k..], compare);
      MergePermutes(Sort(s[..k], compare), Sort(s[k..], compare), compare);
      SplitCounts(s, k);
    }
  }

  lemma {:induction false} SortSorted<T(!new)>(s: seq<T>, compare: Compare<T>)
    requires TotalPreorder(compare)
    ensures Sorted(Sort(s, compare), compare)
    decreases |s|
  {
    if |s| > 1 {
      var k := (|s| - 1) / 2 + 1;
      SortSorted(s[..k], compare);
      SortSorted(s[k..], compare);
      MergeSorted(Sort(s[..k], compare), Sort(s[k..], compare), compare);
    }
  }

  lemma {:induction false} SortStable<T(!new)>(s: seq<T>, x: T, compare: Compare<T>)
    requires TotalPreorder(compare)
    ensures Ties(Sort(s, compare), x, compare) == Ties(s, x, compare)
    decreases |s|
  {
    hide Sorted, TotalPreorder, Merge;
    if |s| > 1 {
      var k := (|s| - 1) / 2 + 1;
      SortSorted(s[..k], compare);
      SortSorted(s[k..], compare);
      SortStable(s[..k], x, compare);
      SortStable(s[k..], x, compare);
      MergeStable(Sort(s[..k], compare), Sort(s[k..], compare), x, compare);
      TiesConcat(s[..k], s[k..], x, compare);
      assert s == s[..k] + s[k..];
    }
  }

  /** A sorted arrangement that keeps ties in order is the only one there is. */
  lemma {:induction false} StableSortUnique<T(!new)>(a: seq<T>, b: seq<T>, compare: Compare<T>)
    requires TotalPreorder(compare) && Sorted(a, compare) && Sorted(b, compare)
    requires forall x :: Ties(a, x, compare) == Ties(b, x, compare)
    ensures a == b
    decreases |a|
  {
    SomeTies(a, compare);
    SomeTies(b, compare);
    if a != [] && b != [] {
      SameHead(a, b, compare);
      forall x ensures Ties(a[1..], x, compare) == Ties(b[1..], x, compare) {
        if compare(a[0], x) == 0 {
          assert Ties(a, x, compare)[1..] == Ties(a[1..], x, compare);
          assert Ties(b, x, compare)[1..] == Ties(b[1..], x, compare);
        } else {
          assert Ties(a, x, compare) == Ties(a[1..], x, compare);
        }
      }
      StableSortUnique(a[1..], b[1..], compare);
    }
  }

  lemma SomeTies<T(!new)>(s: seq<T>, compare: Compare<T>)
    requires TotalPreorder(compare)
    ensures s != [] <==> exists x :: Ties(s, x, compare) != []
  {
    if s != [] {
      assert Ties(s, s[0], compare)[0] == s[0];
    }
  }

  lemma TieOccurs<T>(s: seq<T>, x: T, y: T, compare: Compare<T>)
    requires y in Ties(s, x, compare)
    ensures y in s && compare(y, x) == 0
  {
  }

  lemma HeadTied<T>(s: seq<T>, x: T, compare: Compare<T>)
    requires s != [] && compare(s[0], x) == 0
    ensures Ties(s, x, compare) != [] && Ties(s, x, compare)[0] == s[0]
  {
  }

  lemma SameHead<T(!new)>(a: seq<T>, b: seq<T>, compare: Compare<T>)
    requires TotalPreorder(compare) && Sorted(a, compare) && Sorted(b, compare) && a != [] && b != []
    requires forall x :: Ties(a, x, compare) == Ties(b, x, compare)
    ensures a[0] == b[0]
  {
    hide Ties, Sorted;
    var x, y := a[0], b[0];
    HeadTied(a, x, compare);
    HeadTied(b, y, compare);
    assert Ties(a, x, compare) == Ties(b, x, compare);
    assert Ties(a, y, compare) == Ties(b, y, compare);
    TieOccurs(b, x, x, compare);
    TieOccurs(a, y, y, compare);
    HeadLeast(a, y, compare);
    HeadLeast(b, x, compare);
    assert compare(y, x) == 0;
    HeadTied(b, x, compare);
  }

  // ---------------------------------------------------------------------
  // The number of inversions
  // ---------------------------------------------------------------------

  /** How many elements of s must come after x. */
  ghost function Above<T>(s: seq<T>, x: T, compare: Compare<T>): nat {
    if s == [] then 0 else (if compare(s[0], x) > 0 then 1 else 0) + Above(s[1..], x, compare)
  }

  /** How many pairs of an element of l and one of r are out of order with l before r. */
  ghost function Crossings<T>(l: seq<T>, r: seq<T>, compare: Compare<T>): nat {
    if r == [] then 0 else Above(l, r[0], compare) + Crossings(l, r[1..], compare)
  }

  /** How many pairs of positions of s are out of order. */
  ghost function Inversions<T>(s: seq<T>, compare: Compare<T>): nat {
    if s == [] then 0
    else Crossings([s[0]], s[1..], compare) + Inversions(s[1..], compare)
  }

  lemma {:induction false} AboveConcat<T>(a: seq<T>, b: seq<T>, x: T, compare: Compare<T>)
    ensures Above(a + b, x, compare) == Above(a, x, compare) + Above(b, x, compare)
  {
    if a == [] {
      assert a + b == b;
    } else {
      AboveConcat(a[1..], b, x, compare);
      assert (a + b)[1..] == a[1..] + b;
    }
  }

  lemma {:induction false} CrossingsSplitLeft<T>(a: seq<T>, b: seq<T>, r: seq<T>, compare: Compare<T>)
    ensures Crossings(a + b, r, compare) == Crossings(a, r, compare) + Crossings(b, r, compare)
  {
    if r != [] {
      CrossingsSplitLeft(a, b, r[1..], compare);
      AboveConcat(a, b, r[0], compare);
    }
  }

  lemma {:induction false} CrossingsSplitRight<T>(l: seq<T>, a: seq<T>, b: seq<T>, compare: Compare<T>)
    ensures Crossings(l, a + b, compare) == Crossings(l, a, compare) + Crossings(l, b, compare)
  {
    if a == [] {
      assert a + b == b;
    } else {
      CrossingsSplitRight(l, a[1..], b, compare);
      assert (a + b)[1..] == a[1..] + b;
    }
  }

  lemma {:induction false} InversionsConcat<T>(a: seq<T>, b: seq<T>, compare: Compare<T>)
    ensures Inversions(a + b, compare)
         == Inversions(a, compare) + Inversions(b, compare) + Crossings(a, b, compare)
  {
    if a == [] {
      assert a + b == b;
      NoCrossings([], b, compare);
    } else {
      InversionsConcat(a[1..], b, compare);
      assert (a + b)[1..] == a[1..] + b;
      CrossingsSplitRight([a[0]], a[1..], b, compare);
      CrossingsSplitLeft([a[0]], a[1..], b, compare);
      assert a == [a[0]] + a[1..];
    }
  }

  lemma {:induction false} NoCrossings<T>(l: seq<T>, r: seq<T>, compare: Compare<T>)
    requires forall i, j :: 0 <= i < |l| && 0 <= j < |r| ==> compare(l[i], r[j]) <= 0
    ensures Crossings(l, r, compare) == 0
  {
    if r != [] {
      NoCrossings(l, r[1..], compare);
      NoneAbove(l, r[0], compare);
    }
  }

  lemma {:induction false} NoneAbove<T>(l: seq<T>, x: T, compare: Compare<T>)
    requires forall i :: 0 <= i < |l| ==> compare(l[i], x) <= 0
    ensures Above(l, x, compare) == 0
  {
    if l != [] {
      NoneAbove(l[1..], x, compare);
    }
  }

  lemma {:induction false} AllAbove<T>(l: seq<T>, x: T, compare: Compare<T>)
    requires forall i :: 0 <= i < |l| ==> compare(l[i], x) > 0
    ensures Above(l, x, compare) == |l|
  {
    if l != [] {
      AllAbove(l[1..], x, compare);
    }
  }

  lemma {:induction false} AboveOfPermutation<T>(a: seq<T>, b: seq<T>, x: T, compare: Compare<T>)
    requires multiset(a) == multiset(b)
    ensures Above(a, x, compare) == Above(b, x, compare)
    decreases |a|
  {
    if a == [] {
      assert |multiset(b)| == 0;
    } else {
      var i := Position(a, b);
      AboveOfPermutation(a[1..], b[..i] + b[i + 1..], x, compare);
      AboveConcat(b[..i], b[i + 1..], x, compare);
      AboveConcat(b[..i], b[i..], x, compare);
      assert b == b[..i] + b[i..];
    }
  }

  lemma Position<T>(a: seq<T>, b: seq<T>) returns (i: nat)
    requires multiset(a) == multiset(b) && a != []
    ensures i < |b| && b[i] == a[0] && multiset(a[1..]) == multiset(b[..i] + b[i + 1..])
  {
    assert a[0] in multiset(a);
    i :| 0 <= i < |b| && b[i] == a[0];
    assert a == [a[0]] + a[1..];
    assert b == b[..i] + [b[i]] + b[i + 1..];
    assert multiset(b[..i] + b[i + 1..]) == multiset(b) - multiset{a[0]};
    assert multiset(a[1..]) == multiset(a) - multiset{a[0]};
  }

  lemma {:induction false} CrossingsOfLeftPermutation<T>(a: seq<T>, b: seq<T>, r: seq<T>, compare: Compare<T>)
    requires multiset(a) == multiset(b)
    ensures Crossings(a, r, compare) == Crossings(b, r, compare)
  {
    if r != [] {
      AboveOfPermutation(a, b, r[0], compare);
      CrossingsOfLeftPermutation(a, b, r[1..], compare);
    }
  }

  lemma {:induction false} CrossingsOfRightPermutation<T>(l: seq<T>, a: seq<T>, b: seq<T>, compare: Compare<T>)
    requires multiset(a) == multiset(b)
    ensures Crossings(l, a, compare) == Crossings(l, b, compare)
    decreases |a|
  {
    if a == [] {
      assert |multiset(b)| == 0;
    } else {
      var i := Position(a, b);
      CrossingsOfRightPermutation(l, a[1..], b[..i] + b[i + 1..], compare);
      CrossingsSplitRight(l, b[..i], b[i + 1..], compare);
      CrossingsSplitRight(l, b[..i], b[i..], compare);
      assert b == b[..i] + b[i..];
    }
  }

  /** What sorting the two halves first leaves for the merge to undo. */
  lemma InversionsOfHalves<T>(a: seq<T>, b: seq<T>, compare: Compare<T>)
    ensures Inversions(a + b, compare)
         == Inversions(a, compare) + Inversions(b, compare)
            + Crossings(Sort(a, compare), Sort(b, compare), compare)
  {
    InversionsConcat(a, b, compare);
    SortPermutes(a, compare);
    SortPermutes(b, compare);
    CrossingsOfLeftPermutation(a, Sort(a, compare), b, compare);
    CrossingsOfRightPermutation(Sort(a, compare), b, Sort(b, compare), compare);
  }

  // ---------------------------------------------------------------------
  // One step of the in-place merge
  // ---------------------------------------------------------------------

  lemma TakeLeft<T(!new)>(l: seq<T>, r: seq<T>, compare: Compare<T>)
    requires TotalPreorder(compare) && Sorted(l, compare) && Sorted(r, compare)
    requires l != [] && r != [] && compare(l[0], r[0]) <= 0
    ensures Merge(l, r, compare) == [l[0]] + Merge(l[1..], r, compare)
    ensures Crossings(l, r, compare) == Crossings(l[1..], r, compare)
    ensures Sorted(l[1..], compare)
  {
    assert l == [l[0]] + l[1..];
    CrossingsSplitLeft([l[0]], l[1..], r, compare);
    forall j | 0 <= j < |r| ensures compare(l[0], r[j]) <= 0 {
      HeadLeast(r, r[j], compare);
    }
    NoCrossings([l[0]], r, compare);
  }

  lemma TakeRight<T(!new)>(l: seq<T>, r: seq<T>, compare: Compare<T>)
    requires TotalPreorder(compare) && Sorted(l, compare) && Sorted(r, compare)
    requires l != [] && r != [] && compare(l[0], r[0]) > 0
    ensures Merge(l, r, compare) == [r[0]] + Merge(l, r[1..], compare)
    ensures Crossings(l, r, compare) == |l| + Crossings(l, r[1..], compare)
    ensures Sorted(r[1..], compare)
  {
    RunAbove(l, r[0], compare);
    AllAbove(l, r[0], compare);
  }

  lemma {:induction false} AlreadyInOrder<T(!new)>(l: seq<T>, r: seq<T>, compare: Compare<T>)
    requires TotalPreorder(compare) && Sorted(l, compare) && Sorted(r, compare)
    requires l != [] && r != [] && compare(l[|l| - 1], r[0]) <= 0
    ensures Merge(l, r, compare) == l + r && Crossings(l, r, compare) == 0
    decreases |l|
  {
    forall i, j | 0 <= i < |l| && 0 <= j < |r| ensures compare(l[i], r[j]) <= 0 {
      HeadLeast(r, r[j], compare);
      if i < |l| - 1 {
        assert compare(l[i], l[|l| - 1]) <= 0;
      }
      assert compare(l[i], r[0]) <= 0;
    }
    NoCrossings(l, r, compare);
    MergeInOrder(l, r, compare);
  }

  lemma {:induction false} MergeInOrder<T>(l: seq<T>, r: seq<T>, compare: Compare<T>)
    requires r != [] && forall i :: 0 <= i < |l| ==> compare(l[i], r[0]) <= 0
    ensures Merge(l, r, compare) == l + r
    decreases |l|
  {
    if l == [] {
      assert l + r == r;
    } else {
      MergeInOrder(l[1..], r, compare);
      assert l + r == [l[0]] + (l[1..] + r);
    }
  }

  lemma EmptyRun<T>(l: seq<T>, r: seq<T>, compare: Compare<T>)
    requires l == [] || r == []
    ensures Merge(l, r, compare) == l + r && Crossings(l, r, compare) == 0
  {
    NoCrossings(l, r, compare);
  }

  lemma SingleSorted<T>(x: T, compare: Compare<T>)
    ensures Sort([x], compare) == [x] && Inversions([x], compare) == 0
  {
  }

  lemma PairSorted<T>(s: seq<T>, compare: Compare<T>)
    requires |s| == 2
    ensures Sort(s, compare) == if compare(s[0], s[1]) > 0 then [s[1], s[0]] else s
    ensures Inversions(s, compare) == if compare(s[0], s[1]) > 0 then 1 else 0
  {
    assert s[..1] == [s[0]] && s[1..] == [s[1]];
    SingleSorted(s[0], compare);
    SingleSorted(s[1], compare);
    assert Sort(s, compare) == Merge([s[0]], [s[1]], compare);
    hide Sort;
    assert Above([s[0]], s[1], compare) == if compare(s[0], s[1]) > 0 then 1 else 0;
    assert Crossings([s[0]], [s[1]], compare) == Above([s[0]], s[1], compare);
  }

  lemma AtMostOne<T>(s: seq<T>, compare: Compare<T>)
    requires |s| <= 1
    ensures Sort(s, compare) == s && Inversions(s, compare) == 0
  {
  }

  /** Sorting splits at the middle, and the work splits with it. */
  lemma SortHalves<T(!new)>(s: seq<T>, l: seq<T>, r: seq<T>, compare: Compare<T>)
    requires TotalPreorder(compare) && |s| > 1 && s == l + r && |l| == (|s| - 1) / 2 + 1
    ensures Sort(s, compare) == Merge(Sort(l, compare), Sort(r, compare), compare)
    ensures Sorted(Sort(l, compare), compare) && Sorted(Sort(r, compare), compare)
    ensures Inversions(s, compare)
         == Inversions(l, compare) + Inversions(r, compare) + Crossings(Sort(l, compare), Sort(r, compare), compare)
  {
    assert s[..|l|] == l && s[|l|..] == r;
    SortSorted(l, compare);
    SortSorted(r, compare);
    InversionsOfHalves(l, r, compare);
  }
}
