/** Facts about sequences that several modules share. */
module Seqs {

  datatype Option<+T> = None | Some(value: T)

  ghost predicate NoDuplicates<T>(s: seq<T>) {
    forall i, j :: 0 <= i < j < |s| ==> s[i] != s[j]
  }

  lemma AppendKeepsNoDuplicates<T>(s: seq<T>, x: T)
    requires NoDuplicates(s) && x !in s
    ensures NoDuplicates(s + [x])
  {
  }

  function Insert<T>(s: seq<T>, i: nat, x: T): (r: seq<T>)
    requires i <= |s|
    ensures |r| == |s| + 1
  {
    s[..i] + [x] + s[i..]
  }

  /** list_find, for an item that is in the list. */
  function IndexOf<T(==)>(s: seq<T>, x: T): (i: nat)
    requires x in s
    ensures i < |s| && s[i] == x
  {
    if s[0] == x then 0 else 1 + IndexOf(s[1..], x)
  }

  /** list_remove. */
  function Remove<T(==)>(s: seq<T>, x: T): seq<T> {
    if x in s then var i := IndexOf(s, x); s[..i] + s[i + 1..] else s
  }

  lemma InsertMembers<T>(s: seq<T>, i: nat, x: T, y: T)
    requires i <= |s|
    ensures y in Insert(s, i, x) <==> y == x || y in s
  {
    var r := Insert(s, i, x);
    assert r[i] == x;
    if y in s {
      var k :| 0 <= k < |s| && s[k] == y;
      assert r[if k < i then k else k + 1] == y;
    }
  }

  lemma InsertKeepsNoDuplicates<T>(s: seq<T>, i: nat, x: T)
    requires i <= |s| && NoDuplicates(s) && x !in s
    ensures NoDuplicates(Insert(s, i, x))
  {
  }

  lemma RemoveMembers<T>(s: seq<T>, x: T, y: T)
    requires NoDuplicates(s)
    ensures y in Remove(s, x) <==> y != x && y in s
    ensures x !in Remove(s, x)
  {
    if x in s {
      var i := IndexOf(s, x);
      var r := Remove(s, x);
      if y in s && y != x {
        var k :| 0 <= k < |s| && s[k] == y;
        assert r[if k < i then k else k - 1] == y;
      }
    }
  }

  lemma RemoveKeepsNoDuplicates<T>(s: seq<T>, x: T)
    requires NoDuplicates(s)
    ensures NoDuplicates(Remove(s, x))
  {
  }
}
