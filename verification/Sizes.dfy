/** Counting facts about finite sets and duplicate-free sequences. */
module Sizes {

  lemma SubsetSize<T>(s: set<T>, t: set<T>)
    requires s <= t
    ensures |s| <= |t|
  {
    assert t == s + (t - s);
  }

  /** Pigeonhole: a map that is one-to-one on s cannot squeeze s into a smaller set. */
  lemma {:induction false} ImageSize<T, U>(s: set<T>, f: T -> U, image: set<U>)
    requires forall x | x in s :: f(x) in image
    requires forall x, y | x in s && y in s && x != y :: f(x) != f(y)
    ensures |s| <= |image|
    decreases s
  {
    if s != {} {
      var x :| x in s;
      ImageSize(s - {x}, f, image - {f(x)});
    }
  }

  ghost function Naturals(n: nat): (r: set<nat>)
    ensures |r| == n && forall i: nat :: i in r <==> i < n
  {
    if n == 0 then {} else Naturals(n - 1) + {n - 1}
  }

  ghost function Members<T>(xs: seq<T>): set<T> { set x | x in xs }

  lemma {:induction false} MembersSize<T>(xs: seq<T>)
    requires forall i, j | 0 <= i < j < |xs| :: xs[i] != xs[j]
    ensures |Members(xs)| == |xs|
  {
    if xs == [] {
      assert Members(xs) == {};
    } else {
      var front, last := xs[..|xs| - 1], xs[|xs| - 1];
      MembersSize(front);
      assert xs == front + [last];
      assert Members(xs) == Members(front) + {last};
      assert last !in front;
    }
  }
}
