/** Left folds whose steps commute give the same result for every order of the input. */
module Folds {
  import opened Sums

  function Fold<A, T>(f: (A, T) -> A, init: A, s: seq<T>): A
  {
    if s == [] then init else f(Fold(f, init, s[..|s| - 1]), s[|s| - 1])
  }

  lemma FoldNext<A, T>(f: (A, T) -> A, init: A, s: seq<T>, i: nat)
    requires i < |s|
    ensures Fold(f, init, s[..i + 1]) == f(Fold(f, init, s[..i]), s[i])
  {
    assert s[..i + 1][..i] == s[..i];
  }

  ghost predicate StepsCommute<A(!new), T(!new)>(f: (A, T) -> A) {
    forall a, x, y :: f(f(a, x), y) == f(f(a, y), x)
  }

  lemma {:induction false} FoldConcat<A, T>(f: (A, T) -> A, init: A, s: seq<T>, t: seq<T>)
    ensures Fold(f, init, s + t) == Fold(f, Fold(f, init, s), t)
    decreases |t|
  {
    if t == [] {
      assert s + t == s;
    } else {
      assert (s + t)[..|s + t| - 1] == s + t[..|t| - 1];
      FoldConcat(f, init, s, t[..|t| - 1]);
    }
  }

  /** The element at any position may be folded in last. */
  lemma {:induction false} FoldMoveLast<A(!new), T(!new)>(f: (A, T) -> A, init: A, s: seq<T>, i: nat)
    requires StepsCommute(f)
    requires i < |s|
    ensures Fold(f, init, s) == f(Fold(f, init, s[..i] + s[i + 1..]), s[i])
    decreases |s|
  {
    var n := |s| - 1;
    if i < n {
      FoldMoveLast(f, init, s[..n], i);
      var without := s[..i] + s[i + 1..];
      assert without[..n - 1] == s[..n][..i] + s[..n][i + 1..];
      assert without[n - 1] == s[n];
    } else {
      assert s[..i] + s[i + 1..] == s[..n];
    }
  }

  lemma {:induction false} FoldPermutes<A(!new), T(!new)>(f: (A, T) -> A, init: A, s: seq<T>, t: seq<T>)
    requires StepsCommute(f)
    requires multiset(s) == multiset(t)
    ensures Fold(f, init, s) == Fold(f, init, t)
    decreases |s|
  {
    if s == [] {
      assert |multiset(t)| == 0;
    } else {
      var n := |s| - 1;
      assert s == s[..n] + [s[n]];
      assert s[n] in multiset(t);
      var i :| 0 <= i < |t| && t[i] == s[n];
      assert t == t[..i] + [t[i]] + t[i + 1..];
      assert multiset(s) == multiset(s[..n]) + multiset{s[n]};
      assert multiset(t) == multiset(t[..i] + t[i + 1..]) + multiset{t[i]};
      assert multiset(s[..n]) == multiset(s) - multiset{s[n]};
      assert multiset(t[..i] + t[i + 1..]) == multiset(t) - multiset{t[i]};
      FoldPermutes(f, init, s[..n], t[..i] + t[i + 1..]);
      FoldMoveLast(f, init, t, i);
    }
  }

  /** Two listings of one set are permutations of each other. */
  lemma {:induction false} ListingMultiset<T(!new)>(order: seq<T>, s: set<T>)
    requires IsListing(order, s)
    ensures multiset(order) == multiset(s)
    decreases |order|
  {
    if order == [] {
      assert s == {};
    } else {
      var n := |order| - 1;
      assert order == order[..n] + [order[n]];
      assert forall i :: 0 <= i < n ==> order[i] != order[n];
      assert forall x :: x in order <==> x in order[..n] || x == order[n];
      ListingMultiset(order[..n], s - {order[n]});
      assert s == s - {order[n]} + {order[n]};
    }
  }

  function Adder<T>(f: T -> int): (int, T) -> int {
    (a, x) => a + f(x)
  }

  lemma {:induction false} SumIsFold<T>(s: seq<T>, f: T -> int)
    ensures SumSeq(s, f) == Fold(Adder(f), 0, s)
  {
    if s != [] {
      SumIsFold(s[..|s| - 1], f);
    }
  }

  lemma SumSeqPermutes<T(!new)>(s: seq<T>, t: seq<T>, f: T -> int)
    requires multiset(s) == multiset(t)
    ensures SumSeq(s, f) == SumSeq(t, f)
  {
    SumIsFold(s, f);
    SumIsFold(t, f);
    FoldPermutes(Adder(f), 0, s, t);
  }
}
