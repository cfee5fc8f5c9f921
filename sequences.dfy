/**
 * The edits the grids make to their ordered array of item views: Swift's
 * `removeAtIndex`, `insert(_, atIndex:)` and the remove-then-insert move.
 */
module Sequences {

  /** No element occurs twice. */
  predicate Distinct<T(==)>(s: seq<T>)
  {
    forall i, j :: 0 <= i < j < |s| ==> s[i] != s[j]
  }

  /** No element of `a` occurs in `b`. */
  predicate Disjoint<T(==)>(a: seq<T>, b: seq<T>)
  {
    forall i, j :: 0 <= i < |a| && 0 <= j < |b| ==> a[i] != b[j]
  }

  /** `s` without its element at index `i`; the rest keeps its order. */
  function RemoveAt<T>(s: seq<T>, i: int): (r: seq<T>)
    requires 0 <= i < |s|
    ensures |r| == |s| - 1
    ensures forall j :: 0 <= j < i ==> r[j] == s[j]
    ensures forall j :: i <= j < |r| ==> r[j] == s[j + 1]
    ensures multiset(r) + multiset{s[i]} == multiset(s)
  {
    assert s == s[..i] + [s[i]] + s[i + 1..];
    s[..i] + s[i + 1..]
  }

  /** `s` with `x` inserted so that it ends up at index `i`. */
  function InsertAt<T>(s: seq<T>, i: int, x: T): (r: seq<T>)
    requires 0 <= i <= |s|
    ensures |r| == |s| + 1 && r[i] == x
    ensures forall j :: 0 <= j < i ==> r[j] == s[j]
    ensures forall j :: i < j < |r| ==> r[j] == s[j - 1]
    ensures multiset(r) == multiset(s) + multiset{x}
  {
    assert s == s[..i] + s[i..];
    s[..i] + [x] + s[i..]
  }

  /**
   * The element at `from` taken out and put back at index `to`: a
   * permutation that leaves the other elements in their relative order.
   */
  function Move<T>(s: seq<T>, from: int, to: int): (r: seq<T>)
    requires 0 <= from < |s| && 0 <= to < |s|
    ensures |r| == |s| && r[to] == s[from]
    ensures multiset(r) == multiset(s)
  {
    InsertAt(RemoveAt(s, from), to, s[from])
  }

  /** Apart from the moved element, a move leaves the sequence as it was. */
  lemma MoveKeepsOthers<T>(s: seq<T>, from: int, to: int)
    requires 0 <= from < |s| && 0 <= to < |s|
    ensures RemoveAt(Move(s, from, to), to) == RemoveAt(s, from)
  {
    var rest := RemoveAt(s, from);
    assert RemoveAt(InsertAt(rest, to, s[from]), to) == rest;
  }

  /** A move keeps every element, and adds none. */
  lemma MoveMembers<T>(s: seq<T>, from: int, to: int)
    requires 0 <= from < |s| && 0 <= to < |s|
    ensures forall x :: x in Move(s, from, to) <==> x in s
  {
    var r := Move(s, from, to);
    forall x
      ensures x in r <==> x in s
    {
      assert x in r <==> x in multiset(r);
      assert x in s <==> x in multiset(s);
    }
  }

  /** Moving an element onto its own index changes nothing. */
  lemma MoveInPlace<T>(s: seq<T>, i: int)
    requires 0 <= i < |s|
    ensures Move(s, i, i) == s
  {
    var r := Move(s, i, i);
    assert forall j :: 0 <= j < |s| ==> r[j] == s[j];
  }

  /** A move keeps a sequence free of duplicates. */
  lemma MoveDistinct<T>(s: seq<T>, from: int, to: int)
    requires 0 <= from < |s| && 0 <= to < |s|
    requires Distinct(s)
    ensures Distinct(Move(s, from, to))
  {
    var rest := RemoveAt(s, from);
    assert Distinct(rest) by {
      forall a, b | 0 <= a < b < |rest|
        ensures rest[a] != rest[b]
      {
        var a' := if a < from then a else a + 1;
        var b' := if b < from then b else b + 1;
        assert rest[a] == s[a'] && rest[b] == s[b'] && a' < b';
      }
    }
    assert s[from] !in rest by {
      forall j | 0 <= j < |rest|
        ensures rest[j] != s[from]
      {
        var j' := if j < from then j else j + 1;
        assert rest[j] == s[j'] && j' != from;
      }
    }
    InsertDistinct(rest, to, s[from]);
  }

  /** Inserting an element that is not present keeps a sequence free of duplicates. */
  lemma InsertDistinct<T>(s: seq<T>, i: int, x: T)
    requires 0 <= i <= |s| && Distinct(s) && x !in s
    ensures Distinct(InsertAt(s, i, x))
  {
    var r := InsertAt(s, i, x);
    forall a, b | 0 <= a < b < |r|
      ensures r[a] != r[b]
    {
      if a == i {
        assert r[b] == s[b - 1];
      } else if b == i {
        assert r[a] == s[a];
      } else {
        var a' := if a < i then a else a - 1;
        var b' := if b < i then b else b - 1;
        assert r[a] == s[a'] && r[b] == s[b'] && a' < b';
      }
    }
  }

  /** Removing an element keeps a sequence free of duplicates, and the element is gone. */
  lemma RemoveDistinct<T>(s: seq<T>, i: int)
    requires 0 <= i < |s| && Distinct(s)
    ensures Distinct(RemoveAt(s, i))
    ensures s[i] !in RemoveAt(s, i)
  {
    var r := RemoveAt(s, i);
    forall a, b | 0 <= a < b < |r|
      ensures r[a] != r[b]
    {
      var a' := if a < i then a else a + 1;
      var b' := if b < i then b else b + 1;
      assert r[a] == s[a'] && r[b] == s[b'] && a' < b';
    }
    forall j | 0 <= j < |r|
      ensures r[j] != s[i]
    {
      var j' := if j < i then j else j + 1;
      assert r[j] == s[j'] && j' != i;
    }
  }

  /** The first index at which `x` occurs in `s`. */
  function IndexOf<T(==)>(s: seq<T>, x: T): (r: int)
    requires x in s
    ensures 0 <= r < |s| && s[r] == x
    ensures forall j :: 0 <= j < r ==> s[j] != x
  {
    if s[0] == x then 0 else 1 + IndexOf(s[1..], x)
  }

  /** In a sequence without duplicates, every element's index is its only index. */
  lemma IndexOfDistinct<T>(s: seq<T>, i: int)
    requires 0 <= i < |s| && Distinct(s)
    ensures IndexOf(s, s[i]) == i
  {
    var k := IndexOf(s, s[i]);
    assert s[k] == s[i];
  }
}
