/** The growable array of src/list.c, edited and sorted in place. */
module Lists {
  import opened StableSort

  const INITIAL_CAPACITY: nat := 10

  /** A list while two runs in it are merged: before them, what is merged, what is left of each, behind them. */
  ghost function Parts<T>(prefix: seq<T>, out: seq<T>, a: seq<T>, b: seq<T>, suffix: seq<T>): seq<T> {
    prefix + out + a + b + suffix
  }

  lemma PartsStart<T>(s: seq<T>, i: nat, j: nat, k: nat)
    requires i <= j <= k <= |s|
    ensures s == Parts(s[..i], [], s[i..j], s[j..k], s[k..])
  {
  }

  /** The heads of the runs, and the step that leaves the left one where it is. */
  lemma PartsAt<T>(prefix: seq<T>, out: seq<T>, a: seq<T>, b: seq<T>, suffix: seq<T>)
    requires a != [] && b != []
    ensures var s := Parts(prefix, out, a, b, suffix);
            && |prefix| + |out| + |a| < |s|
            && s[|prefix| + |out|] == a[0] && s[|prefix| + |out| + |a|] == b[0]
            && s == Parts(prefix, out + [a[0]], a[1..], b, suffix)
  {
    assert a == [a[0]] + a[1..];
  }

  /** Rotating the head of the right run in front of the left run. */
  lemma PartsRotated<T>(prefix: seq<T>, out: seq<T>, a: seq<T>, b: seq<T>, suffix: seq<T>)
    requires b != []
    ensures var s, from, to := Parts(prefix, out, a, b, suffix), |prefix| + |out|, |prefix| + |out| + |a|;
            && to < |s|
            && s[..from] + [s[to]] + s[from..to] + s[to + 1..] == Parts(prefix, out + [b[0]], a, b[1..], suffix)
  {
    var s, from, to := Parts(prefix, out, a, b, suffix), |prefix| + |out|, |prefix| + |out| + |a|;
    assert s[..from] == prefix + out && s[from..to] == a && s[to + 1..] == b[1..] + suffix;
  }

  lemma PartsEnd<T>(prefix: seq<T>, out: seq<T>, a: seq<T>, b: seq<T>, suffix: seq<T>)
    ensures Parts(prefix, out, a, b, suffix) == prefix + (out + (a + b)) + suffix
  {
  }

  lemma Shunt<T>(a: seq<T>, x: T, b: seq<T>)
    ensures a + ([x] + b) == a + [x] + b
  {
  }

  class List<T(0, ==, !new)> {
    var items: array<T>   // its length is the capacity
    var length: nat

    ghost predicate Valid()
      reads this
    {
      0 < items.Length && length <= items.Length
    }

    ghost function Contents(): (s: seq<T>)
      requires Valid()
      reads this, items
      ensures |s| == length
    {
      items[..length]
    }

    constructor ()
      ensures Valid() && Contents() == [] && fresh(items)
    {
      items := new T[INITIAL_CAPACITY];
      length := 0;
    }

    /** Doubles the capacity of a full list. */
    method Resize()
      requires Valid()
      modifies this`items
      ensures Valid() && length < items.Length && Contents() == old(Contents())
      ensures items == old(items) || fresh(items)
    {
      if length == items.Length {
        var grown := new T[2 * items.Length];
        for i := 0 to length
          invariant grown[..i] == items[..i]
          modifies grown
        {
          grown[i] := items[i];
        }
        items := grown;
      }
    }

    method Add(item: T)
      requires Valid()
      modifies this, items
      ensures Valid() && (items == old(items) || fresh(items))
      ensures Contents() == old(Contents()) + [item]
    {
      Resize();
      items[length] := item;
      length := length + 1;
    }

    method Insert(index: nat, item: T)
      requires Valid() && index <= length
      modifies this, items
      ensures Valid() && (items == old(items) || fresh(items))
      ensures Contents() == old(Contents()[..index]) + [item] + old(Contents()[index..])
    {
      Resize();
      ghost var before := Contents();
      var i := length;
      while i > index
        invariant index <= i <= length < items.Length
        invariant items[..i] == before[..i]
        invariant forall k :: i < k <= length ==> items[k] == before[k - 1]
        modifies items
      {
        items[i] := items[i - 1];
        i := i - 1;
      }
      length := length + 1;
      items[index] := item;
      assert Contents() == before[..index] + [item] + before[index..];
    }

    method Delete(index: nat)
      requires Valid() && index < length
      modifies this, items
      ensures Valid() && items == old(items)
      ensures Contents() == old(Contents()[..index]) + old(Contents()[index + 1..])
    {
      ghost var before := Contents();
      length := length - 1;
      for i := index to length
        invariant items[..i] == before[..index] + before[index + 1..i + 1]
        invariant forall k :: i <= k <= length ==> items[k] == before[k]
        modifies items
      {
        items[i] := items[i + 1];
      }
      assert Contents() == before[..index] + before[index + 1..];
    }

    method Clear()
      requires Valid()
      modifies this`length
      ensures Valid() && Contents() == []
    {
      length := 0;
    }

    /** Appends the items of another list. */
    method Cat(source: List<T>)
      requires Valid() && source.Valid() && source != this && source.items != items
      modifies this, items
      ensures Valid() && (items == old(items) || fresh(items))
      ensures Contents() == old(Contents()) + old(source.Contents())
    {
      for i := 0 to source.length
        invariant Valid() && (items == old(items) || fresh(items)) && source.Valid() && source.items != items
        invariant source.length == old(source.length) && source.Contents() == old(source.Contents())
        invariant Contents() == old(Contents()) + source.Contents()[..i]
      {
        Add(source.items[i]);
      }
    }

    // ---------------------------------------------------------------------
    // Stable sort
    // ---------------------------------------------------------------------

    /** Moves the item at to down to from, shifting those between up; counts the shifts. */
    method Rotate(from: nat, to: nat) returns (shifts: nat)
      requires Valid() && from <= to < length
      modifies items
      ensures items[..] == old(items[..from] + [items[to]] + items[from..to] + items[to + 1..])
      ensures shifts == to - from
    {
      ghost var before := items[..];
      var tmp := items[to];
      var i := to;
      shifts := 0;
      while i > from
        invariant from <= i <= to && shifts == to - i
        invariant items[..i] == before[..i] && items[to + 1..] == before[to + 1..]
        invariant forall k :: i < k <= to ==> items[k] == before[k - 1]
      {
        items[i] := items[i - 1];
        i := i - 1;
        shifts := shifts + 1;
      }
      items[from] := tmp;
      assert items[..] == before[..from] + [before[to]] + before[from..to] + before[to + 1..];
    }

    /** Merges the sorted runs first..middle and middle + 1..last. */
    method InplaceMerge(first: nat, last: nat, middle: nat, compare: Compare<T>) returns (shifts: nat)
      requires Valid() && first <= middle < last < length && TotalPreorder(compare)
      requires Sorted(items[first..middle + 1], compare) && Sorted(items[middle + 1..last + 1], compare)
      modifies items
      ensures items[..first] == old(items[..first]) && items[last + 1..] == old(items[last + 1..])
      ensures items[first..last + 1]
           == Merge(old(items[first..middle + 1]), old(items[middle + 1..last + 1]), compare)
      ensures shifts == Crossings(old(items[first..middle + 1]), old(items[middle + 1..last + 1]), compare)
    {
      hide Merge, Crossings, Sorted, TotalPreorder;
      ghost var l, r := items[first..middle + 1], items[middle + 1..last + 1];
      if compare(items[middle], items[middle + 1]) <= 0 {
        AlreadyInOrder(l, r, compare);
        assert items[first..last + 1] == l + r;
        return 0;
      }
      shifts := MergeRuns(first, last, middle, compare, l, r);
    }

    method MergeRuns(first: nat, last: nat, middle: nat, compare: Compare<T>, ghost l: seq<T>, ghost r: seq<T>)
      returns (shifts: nat)
      requires Valid() && first <= middle < last < length && TotalPreorder(compare)
      requires l == items[first..middle + 1] && r == items[middle + 1..last + 1]
      requires Sorted(l, compare) && Sorted(r, compare)
      modifies items
      ensures items[..] == old(items[..first]) + Merge(l, r, compare) + old(items[last + 1..])
      ensures shifts == Crossings(l, r, compare)
    {
      hide Merge, Crossings, Sorted, TotalPreorder, Parts;
      var left, mid, right := first, middle, middle + 1;
      shifts := 0;
      ghost var prefix, suffix := items[..first], items[last + 1..];
      ghost var out, a, b := [], l, r;
      PartsStart(items[..], first, middle + 1, last + 1);
      assert out + Merge(l, r, compare) == Merge(l, r, compare);
      while left <= mid && right <= last
        invariant first <= left <= mid + 1 == right <= last + 1
        invariant |out| == left - first && |a| == right - left && |b| == last + 1 - right
        invariant items[..] == Parts(prefix, out, a, b, suffix)
        invariant Sorted(a, compare) && Sorted(b, compare)
        invariant Merge(l, r, compare) == out + Merge(a, b, compare)
        invariant shifts + Crossings(a, b, compare) == Crossings(l, r, compare)
        decreases last + 1 - left
      {
        PartsAt(prefix, out, a, b, suffix);
        assert a[0] == items[..][left] && b[0] == items[..][right];
        if compare(items[left], items[right]) <= 0 {
          TakeLeft(a, b, compare);
          Shunt(out, a[0], Merge(a[1..], b, compare));
          out, a := out + [a[0]], a[1..];
          left := left + 1;
        } else {
          TakeRight(a, b, compare);
          Shunt(out, b[0], Merge(a, b[1..], compare));
          PartsRotated(prefix, out, a, b, suffix);
          var n := Rotate(left, right);
          out, b := out + [b[0]], b[1..];
          shifts := shifts + n;
          left, mid, right := left + 1, mid + 1, right + 1;
        }
      }
      EmptyRun(a, b, compare);
      PartsEnd(prefix, out, a, b, suffix);
    }

    method InplaceSort(first: nat, last: nat, compare: Compare<T>) returns (shifts: nat)
      requires Valid() && first <= last < length && TotalPreorder(compare)
      modifies items
      ensures items[..first] == old(items[..first]) && items[last + 1..] == old(items[last + 1..])
      ensures items[first..last + 1] == Sort(old(items[first..last + 1]), compare)
      ensures shifts == Inversions(old(items[first..last + 1]), compare)
      decreases last - first, 1
    {
      hide Merge, Sort, Crossings, Inversions, Sorted, TotalPreorder;
      ghost var s := items[first..last + 1];
      if first >= last {
        AtMostOne(s, compare);
        return 0;
      } else if last - first == 1 {
        PairSorted(s, compare);
        if compare(items[first], items[last]) > 0 {
          items[first], items[last] := items[last], items[first];
          assert items[first..last + 1] == [s[1], s[0]];
          return 1;
        }
        return 0;
      } else {
        var mid := (last + first) / 2;
        ghost var l, r := items[first..mid + 1], items[mid + 1..last + 1];
        assert s == l + r;
        SortHalves(s, l, r, compare);
        var n := SortRuns(first, mid, last, compare);
        var n' := InplaceMerge(first, last, mid, compare);
        return n + n';
      }
    }

    /** Sorts the two halves of a run, each on its own. */
    method SortRuns(first: nat, mid: nat, last: nat, compare: Compare<T>) returns (shifts: nat)
      requires Valid() && first <= mid < last < length && TotalPreorder(compare)
      modifies items
      ensures items[..first] == old(items[..first]) && items[last + 1..] == old(items[last + 1..])
      ensures items[first..mid + 1] == Sort(old(items[first..mid + 1]), compare)
      ensures items[mid + 1..last + 1] == Sort(old(items[mid + 1..last + 1]), compare)
      ensures shifts == Inversions(old(items[first..mid + 1]), compare) + Inversions(old(items[mid + 1..last + 1]), compare)
      decreases last - first, 0
    {
      hide Sort, Inversions, TotalPreorder;
      ghost var l, tail, n := items[first..mid + 1], items[mid + 1..], last - mid;
      assert items[mid + 1..last + 1] == tail[..n] && items[last + 1..] == tail[n..];
      var n1 := InplaceSort(first, mid, compare);
      assert items[mid + 1..last + 1] == items[mid + 1..][..n] && items[mid + 1..][n..] == items[last + 1..];
      ghost var head := items[..mid + 1];
      assert items[first..mid + 1] == head[first..] && items[..first] == head[..first];
      var n2 := InplaceSort(mid + 1, last, compare);
      assert items[first..mid + 1] == items[..mid + 1][first..] && items[..first] == items[..mid + 1][..first];
      return n1 + n2;
    }

    /**
     * Sorts the list in place. The work done, in items moved by one place, is
     * exactly the number of pairs that were out of order.
     */
    method StableSort(compare: Compare<T>) returns (shifts: nat)
      requires Valid() && TotalPreorder(compare)
      modifies items
      ensures Valid() && Contents() == Sort(old(Contents()), compare)
      ensures shifts == Inversions(old(Contents()), compare)
    {
      shifts := 0;
      if length > 1 {
        assert items[0..length] == items[..length];
        shifts := InplaceSort(0, length - 1, compare);
        assert items[0..length] == items[..length];
      } else {
        AtMostOne(Contents(), compare);
      }
    }

    /** The index of the first occurrence of the item, or -1. */
    method Find(item: T) returns (index: int)
      requires Valid()
      ensures -1 <= index < length
      ensures index == -1 <==> item !in Contents()
      ensures index >= 0 ==> Contents()[index] == item && item !in Contents()[..index]
    {
      index := 0;
      while index < length
        invariant 0 <= index <= length && item !in Contents()[..index]
      {
        if items[index] == item {
          return;
        }
        index := index + 1;
      }
      index := -1;
    }

    /** The source asserts that the item is there. */
    method MoveToEnd(item: T)
      requires Valid() && item in Contents()
      modifies this, items
      ensures Valid() && (items == old(items) || fresh(items))
      ensures exists i :: 0 <= i < |old(Contents())| && old(Contents())[i] == item && item !in old(Contents())[..i] &&
                Contents() == old(Contents())[..i] + old(Contents())[i + 1..] + [item]
    {
      ghost var before := Contents();
      var i := Find(item);
      Delete(i);
      Add(item);
      assert Contents() == before[..i] + before[i + 1..] + [item];
    }
  }
}
