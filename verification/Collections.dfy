/** Sequences and sets. */
module Collections {

  lemma Cancel<T>(p: seq<T>, u: seq<T>, q: seq<T>, v: seq<T>)
    requires p + u == q + v && |p| == |q|
    ensures p == q && u == v
  {
    assert p == (p + u)[..|p|] && q == (q + v)[..|q|];
    assert u == (p + u)[|p|..] && v == (q + v)[|q|..];
  }

  lemma Associate<T>(p: seq<T>, q: seq<T>, r: seq<T>)
    ensures (p + q) + r == p + (q + r)
  {
  }

  /** The elements that satisfy p, in order. */
  function Filter<T>(xs: seq<T>, p: T -> bool): seq<T> {
    if xs == [] then []
    else Filter(xs[..|xs| - 1], p) + (if p(xs[|xs| - 1]) then [xs[|xs| - 1]] else [])
  }

  /** How many numbers below n satisfy p. */
  function HowMany(n: nat, p: int -> bool): nat {
    if n == 0 then 0 else HowMany(n - 1, p) + (if p(n - 1) then 1 else 0)
  }

  /** The numbers below n that satisfy p, in order. */
  function Positions(n: nat, p: int -> bool): (ps: seq<nat>)
    ensures forall k :: 0 <= k < |ps| ==> ps[k] < n
  {
    if n == 0 then [] else Positions(n - 1, p) + (if p(n - 1) then [n - 1] else [])
  }

  lemma {:induction false} PositionsHold(n: nat, p: int -> bool)
    ensures forall j, k :: 0 <= j < k < |Positions(n, p)| ==> Positions(n, p)[j] < Positions(n, p)[k]
    ensures forall i: nat :: i in Positions(n, p) <==> i < n && p(i)
  {
    if n > 0 {
      PositionsHold(n - 1, p);
    }
  }

  lemma {:induction false} PositionsSame(n: nat, p: int -> bool, q: int -> bool)
    requires forall i :: 0 <= i < n ==> (p(i) <==> q(i))
    ensures Positions(n, p) == Positions(n, q)
  {
    if n > 0 {
      PositionsSame(n - 1, p, q);
    }
  }

  /** The places of xs that satisfy p. */
  function At<T>(xs: seq<T>, p: T -> bool): int -> bool {
    i => 0 <= i < |xs| && p(xs[i])
  }

  /** Filtering keeps the elements at the places that satisfy p. */
  lemma {:induction false} FilterAt<T>(xs: seq<T>, p: T -> bool)
    ensures var at := Positions(|xs|, At(xs, p));
            |Filter(xs, p)| == |at| && forall k :: 0 <= k < |at| ==> Filter(xs, p)[k] == xs[at[k]]
  {
    if xs != [] {
      var n := |xs| - 1;
      FilterAt(xs[..n], p);
      PositionsSame(n, At(xs, p), At(xs[..n], p));
    }
  }

  lemma {:induction false} HowManySame(n: nat, p: int -> bool, q: int -> bool)
    requires forall i :: 0 <= i < n ==> (p(i) <==> q(i))
    ensures HowMany(n, p) == HowMany(n, q)
  {
    if n > 0 {
      HowManySame(n - 1, p, q);
    }
  }

  /** The first number apart from the others. */
  lemma {:induction false} HowManyFirst(n: nat, p: int -> bool, q: int -> bool)
    requires forall i :: 0 <= i < n ==> (q(i) <==> p(i + 1))
    ensures HowMany(n + 1, p) == (if p(0) then 1 else 0) + HowMany(n, q)
  {
    if n == 0 {
      assert HowMany(1, p) == HowMany(0, p) + (if p(0) then 1 else 0);
    } else {
      HowManyFirst(n - 1, p, q);
    }
  }

  lemma {:induction false} HowManyNone(n: nat, p: int -> bool)
    requires forall i :: 0 <= i < n ==> !p(i)
    ensures HowMany(n, p) == 0
  {
    if n > 0 {
      HowManyNone(n - 1, p);
    }
  }

  /** Moving one element from the front of a rest to the end of what came before. */
  lemma TakeOne<T>(acc: seq<T>, s: seq<T>, i: nat)
    requires i < |s|
    ensures acc + s[i..] == (acc + [s[i]]) + s[i + 1..]
    ensures i + 1 == |s| ==> acc + s[i..] == acc + [s[i]]
  {
  }

  lemma SubsetSize<T>(a: set<T>, b: set<T>)
    requires a <= b
    ensures |a| <= |b|
  {
    assert b == a + (b - a);
  }
}
