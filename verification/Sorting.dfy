/** The contract of Go's sort.Slice and sort.Strings: an ordered permutation of the input. */
module Sorting {

  ghost predicate TotalPreorder<T(!new)>(atMost: (T, T) -> bool) {
    && (forall a, b :: atMost(a, b) || atMost(b, a))
    && (forall a, b, c :: atMost(a, b) && atMost(b, c) ==> atMost(a, c))
  }

  ghost predicate Ordered<T>(s: seq<T>, atMost: (T, T) -> bool) {
    forall i, j :: 0 <= i < j < |s| ==> atMost(s[i], s[j])
  }

  ghost predicate SortedCopy<T>(s: seq<T>, of: seq<T>, atMost: (T, T) -> bool) {
    multiset(s) == multiset(of) && Ordered(s, atMost)
  }

  lemma InsertOrdered<T(!new)>(r: seq<T>, j: nat, x: T, atMost: (T, T) -> bool)
    requires TotalPreorder(atMost) && Ordered(r, atMost)
    requires j <= |r|
    requires j > 0 ==> !atMost(x, r[j - 1])
    requires forall k :: j <= k < |r| ==> atMost(x, r[k])
    ensures Ordered(r[..j] + [x] + r[j..], atMost)
  {
    forall k | 0 <= k < j ensures atMost(r[k], x) {
      assert atMost(r[j - 1], x);
      if k < j - 1 {
        assert atMost(r[k], r[j - 1]);
      }
    }
  }

  /** Nothing is said of the order of elements that compare as equal: sort.Slice is not stable. */
  method Sort<T(!new)>(s: seq<T>, atMost: (T, T) -> bool) returns (r: seq<T>)
    requires TotalPreorder(atMost)
    ensures SortedCopy(r, s, atMost)
  {
    r := [];
    for i := 0 to |s|
      invariant SortedCopy(r, s[..i], atMost)
    {
      r := Insert(r, s[i], atMost);
      assert s[..i + 1] == s[..i] + [s[i]];
    }
    assert s[..|s|] == s;
  }

  method Insert<T(!new)>(r: seq<T>, x: T, atMost: (T, T) -> bool) returns (t: seq<T>)
    requires TotalPreorder(atMost) && Ordered(r, atMost)
    ensures SortedCopy(t, r + [x], atMost)
  {
    var j := |r|;
    while j > 0 && atMost(x, r[j - 1])
      invariant 0 <= j <= |r|
      invariant forall k :: j <= k < |r| ==> atMost(x, r[k])
    {
      j := j - 1;
    }
    InsertOrdered(r, j, x, atMost);
    t := r[..j] + [x] + r[j..];
    assert multiset(t) == multiset(r[..j] + r[j..]) + multiset{x};
    assert r[..j] + r[j..] == r;
  }

  lemma SameElements<T(!new)>(s: seq<T>, t: seq<T>)
    requires multiset(s) == multiset(t)
    ensures |s| == |t|
    ensures forall x :: x in s <==> x in t
  {
    assert |multiset(s)| == |multiset(t)|;
    assert forall x :: x in s <==> x in multiset(s);
    assert forall x :: x in t <==> x in multiset(t);
  }

  lemma SortedLength<T>(s: seq<T>, t: seq<T>)
    requires multiset(s) == multiset(t)
    ensures |s| == |t|
  {
    assert |multiset(s)| == |multiset(t)|;
  }

  lemma LastIsGreatest<T(!new)>(s: seq<T>, x: T, atMost: (T, T) -> bool)
    requires Ordered(s, atMost) && x in s
    ensures x == s[|s| - 1] || atMost(x, s[|s| - 1])
  {
    var i :| 0 <= i < |s| && s[i] == x;
  }

  lemma DropLast<T(!new)>(s: seq<T>, atMost: (T, T) -> bool)
    requires s != [] && Ordered(s, atMost)
    ensures multiset(s[..|s| - 1]) == multiset(s) - multiset{s[|s| - 1]}
    ensures Ordered(s[..|s| - 1], atMost)
  {
    assert s == s[..|s| - 1] + [s[|s| - 1]];
  }

  ghost predicate NoTies<T(!new)>(s: seq<T>, atMost: (T, T) -> bool) {
    forall x, y :: x in s && y in s && atMost(x, y) && atMost(y, x) ==> x == y
  }

  /** Without ties between different elements there is only one ordered arrangement. */
  lemma {:induction false} SortedUnique<T(!new)>(s: seq<T>, t: seq<T>, atMost: (T, T) -> bool)
    requires multiset(s) == multiset(t)
    requires Ordered(s, atMost) && Ordered(t, atMost) && NoTies(s, atMost)
    ensures s == t
    decreases |s|
  {
    hide Ordered;
    SameElements(s, t);
    if s != [] {
      var n := |s| - 1;
      LastIsGreatest(s, t[n], atMost);
      LastIsGreatest(t, s[n], atMost);
      DropLast(s, atMost);
      DropLast(t, atMost);
      SortedUnique(s[..n], t[..n], atMost);
      assert s == s[..n] + [s[n]] && t == t[..n] + [t[n]];
    }
  }
}
