/** Sums over finite sets and over sequences, with the re-grouping laws the aggregations rest on. */
module Sums {

  ghost function SumSet<T>(s: set<T>, f: T -> int): int
  {
    if s == {} then 0 else
      var x :| x in s;
      f(x) + SumSet(s - {x}, f)
  }

  function SumSeq<T>(s: seq<T>, f: T -> int): int
  {
    if s == [] then 0 else SumSeq(s[..|s| - 1], f) + f(s[|s| - 1])
  }

  /** The numbers themselves as summands. */
  function Identity(): int -> int {
    n => n
  }

  /** `order` lists every element of `s` exactly once. */
  ghost predicate IsListing<T(!new)>(order: seq<T>, s: set<T>) {
    && (forall x :: x in order <==> x in s)
    && (forall i, j :: 0 <= i < j < |order| ==> order[i] != order[j])
  }

  lemma ListingSnoc<T(!new)>(order: seq<T>, s: set<T>, x: T)
    requires IsListing(order, s) && x !in s
    ensures IsListing(order + [x], s + {x})
  {
  }

  /** Any element may be taken out first. */
  lemma {:induction false} SumPick<T>(s: set<T>, f: T -> int, x: T)
    requires x in s
    ensures SumSet(s, f) == f(x) + SumSet(s - {x}, f)
    decreases s
  {
    var y :| y in s && SumSet(s, f) == f(y) + SumSet(s - {y}, f);
    if y != x {
      SumPick(s - {y}, f, x);
      SumPick(s - {x}, f, y);
      assert s - {y} - {x} == s - {x} - {y};
    }
  }

  lemma {:induction false} SumAdd<T>(s: set<T>, f: T -> int, x: T)
    requires x !in s
    ensures SumSet(s + {x}, f) == SumSet(s, f) + f(x)
  {
    SumPick(s + {x}, f, x);
    assert s + {x} - {x} == s;
  }

  lemma {:induction false} SumCongruent<T>(s: set<T>, f: T -> int, g: T -> int)
    requires forall x :: x in s ==> f(x) == g(x)
    ensures SumSet(s, f) == SumSet(s, g)
    decreases s
  {
    if s != {} {
      var x :| x in s;
      SumPick(s, f, x);
      SumPick(s, g, x);
      SumCongruent(s - {x}, f, g);
    }
  }

  lemma {:induction false} SumMonotone<T>(s: set<T>, f: T -> int, g: T -> int)
    requires forall x :: x in s ==> f(x) <= g(x)
    ensures SumSet(s, f) <= SumSet(s, g)
    decreases s
  {
    if s != {} {
      var x :| x in s;
      SumPick(s, f, x);
      SumPick(s, g, x);
      SumMonotone(s - {x}, f, g);
    }
  }

  /** Elements that contribute nothing may be added. */
  lemma {:induction false} SumExtend<T>(a: set<T>, b: set<T>, f: T -> int)
    requires a <= b && forall x :: x in b && x !in a ==> f(x) == 0
    ensures SumSet(a, f) == SumSet(b, f)
    decreases b
  {
    if a != b {
      var x :| x in b && x !in a;
      SumPick(b, f, x);
      SumExtend(a, b - {x}, f);
    }
  }

  lemma {:induction false} SumDisjoint<T>(a: set<T>, b: set<T>, f: T -> int)
    requires a !! b
    ensures SumSet(a + b, f) == SumSet(a, f) + SumSet(b, f)
    decreases b
  {
    if b == {} {
      assert a + b == a;
    } else {
      var x :| x in b;
      SumPick(b, f, x);
      SumPick(a + b, f, x);
      assert a + b - {x} == a + (b - {x});
      SumDisjoint(a, b - {x}, f);
    }
  }

  /** The elements of `s` that `g` puts into class `p`. */
  ghost function Class<T, P>(s: set<T>, g: T -> P, p: P): set<T> {
    set x | x in s && g(x) == p
  }

  ghost function ClassSum<T, P>(s: set<T>, g: T -> P, f: T -> int): P -> int {
    p => SumSet(Class(s, g, p), f)
  }

  /** Summing class by class is summing once. */
  lemma {:induction false} SumPartition<T, P>(s: set<T>, ps: set<P>, g: T -> P, f: T -> int)
    requires forall x :: x in s ==> g(x) in ps
    ensures SumSet(s, f) == SumSet(ps, ClassSum(s, g, f))
    decreases ps
  {
    if ps == {} {
      assert s == {};
    } else {
      var p :| p in ps;
      var c := Class(s, g, p);
      var rest := s - c;
      SumPick(ps, ClassSum(s, g, f), p);
      assert rest + c == s;
      SumDisjoint(rest, c, f);
      SumPartition(rest, ps - {p}, g, f);
      forall q | q in ps - {p} ensures ClassSum(s, g, f)(q) == ClassSum(rest, g, f)(q) {
        assert Class(s, g, q) == Class(rest, g, q);
      }
      SumCongruent(ps - {p}, ClassSum(s, g, f), ClassSum(rest, g, f));
    }
  }

  lemma {:induction false} SumListing<T(!new)>(order: seq<T>, s: set<T>, f: T -> int)
    requires IsListing(order, s)
    ensures SumSeq(order, f) == SumSet(s, f)
    decreases |order|
  {
    if order == [] {
      assert s == {};
    } else {
      var n := |order| - 1;
      var last := order[n];
      assert last in s;
      SumPick(s, f, last);
      assert forall x :: x in order <==> x in order[..n] || x == last;
      assert forall i :: 0 <= i < n ==> order[i] != last;
      SumListing(order[..n], s - {last}, f);
    }
  }

  lemma SumSnoc<T>(s: seq<T>, x: T, f: T -> int)
    ensures SumSeq(s + [x], f) == SumSeq(s, f) + f(x)
  {
    assert (s + [x])[..|s|] == s;
  }

  lemma {:induction false} SumSeqConcat<T>(s: seq<T>, t: seq<T>, f: T -> int)
    ensures SumSeq(s + t, f) == SumSeq(s, f) + SumSeq(t, f)
    decreases |t|
  {
    if t == [] {
      assert s + t == s;
    } else {
      var n := |t| - 1;
      assert (s + t)[..|s + t| - 1] == s + t[..n];
      SumSeqConcat(s, t[..n], f);
    }
  }

  lemma {:induction false} SumSeqCongruent<T>(s: seq<T>, f: T -> int, g: T -> int)
    requires forall i :: 0 <= i < |s| ==> f(s[i]) == g(s[i])
    ensures SumSeq(s, f) == SumSeq(s, g)
    decreases |s|
  {
    if s != [] {
      SumSeqCongruent(s[..|s| - 1], f, g);
    }
  }

  lemma {:induction false} SumSeqUpdate<T>(s: seq<T>, i: nat, x: T, f: T -> int)
    requires i < |s|
    ensures SumSeq(s[i := x], f) == SumSeq(s, f) - f(s[i]) + f(x)
    decreases |s|
  {
    var n := |s| - 1;
    if i == n {
      assert s[i := x][..n] == s[..n];
    } else {
      assert s[i := x][..n] == s[..n][i := x];
      SumSeqUpdate(s[..n], i, x, f);
    }
  }

  lemma {:induction false} SumSeqMonotone<T>(s: seq<T>, f: T -> int, g: T -> int)
    requires forall i :: 0 <= i < |s| ==> f(s[i]) <= g(s[i])
    ensures SumSeq(s, f) <= SumSeq(s, g)
    decreases |s|
  {
    if s != [] {
      SumSeqMonotone(s[..|s| - 1], f, g);
    }
  }

  /** Summing over transformed elements. */
  lemma {:induction false} SumSeqMap<A, B>(s: seq<A>, t: seq<B>, f: A -> int, g: B -> int)
    requires |s| == |t|
    requires forall i :: 0 <= i < |s| ==> f(s[i]) == g(t[i])
    ensures SumSeq(s, f) == SumSeq(t, g)
    decreases |s|
  {
    if s != [] {
      SumSeqMap(s[..|s| - 1], t[..|t| - 1], f, g);
    }
  }

  ghost function SetOf<T>(s: seq<T>): set<T> {
    set x | x in s
  }

  lemma {:induction false} SetOfSize<T(!new)>(s: seq<T>)
    ensures |SetOf(s)| <= |s|
    ensures |SetOf(s)| == |s| ==> forall i, j :: 0 <= i < j < |s| ==> s[i] != s[j]
    decreases |s|
  {
    if s != [] {
      var n := |s| - 1;
      SetOfSize(s[..n]);
      assert s == s[..n] + [s[n]];
      if s[n] in s[..n] {
        assert SetOf(s) == SetOf(s[..n]);
      } else {
        assert SetOf(s) == SetOf(s[..n]) + {s[n]};
        assert forall i :: 0 <= i < n ==> s[..n][i] != s[n];
      }
    }
  }

  /** As many positions as elements: nothing is listed twice. */
  lemma ListingByCount<T(!new)>(order: seq<T>, s: set<T>)
    requires SetOf(order) == s && |order| == |s|
    ensures IsListing(order, s)
  {
    SetOfSize(order);
    assert forall x :: x in order <==> x in SetOf(order);
  }

  /** Taking one element off the work that remains adds it to the work done. */
  lemma TodoStep<K>(all: set<K>, todo: set<K>, k: K)
    requires todo <= all && k in todo
    ensures all - (todo - {k}) == all - todo + {k}
    ensures |all - (todo - {k})| == |all - todo| + 1
  {
    assert all - (todo - {k}) == all - todo + {k};
  }
}
