/** Folding a sequence into a state, and when that respects an addition. */
module Folding {
  import opened Iteration

  function Fold<S, T>(f: (S, T) -> S, c: S, vs: seq<T>): S
    decreases |vs|
  {
    if vs == [] then c else Fold(f, f(c, vs[0]), vs[1..])
  }

  lemma {:induction false} FoldConcat<S, T>(f: (S, T) -> S, c: S, a: seq<T>, b: seq<T>)
    ensures Fold(f, c, a + b) == Fold(f, Fold(f, c, a), b)
    decreases |a|
  {
    if a == [] {
      assert a + b == b;
    } else {
      FoldConcat(f, f(c, a[0]), a[1..], b);
      assert (a + b)[1..] == a[1..] + b;
    }
  }

  lemma FoldSnoc<S, T>(f: (S, T) -> S, c: S, a: seq<T>, v: T)
    ensures Fold(f, c, a + [v]) == f(Fold(f, c, a), v)
  {
    FoldConcat(f, c, a, [v]);
    assert Fold(f, Fold(f, c, a), [v]) == Fold(f, f(Fold(f, c, a), v), [v][1..]);
  }

  function Zip<T>(plus: (T, T) -> T, u: seq<T>, v: seq<T>): (r: seq<T>)
    requires |u| == |v|
    ensures |r| == |u| && forall i :: 0 <= i < |r| ==> r[i] == plus(u[i], v[i])
  {
    if u == [] then [] else [plus(u[0], v[0])] + Zip(plus, u[1..], v[1..])
  }

  ghost predicate FoldsSums<S(!new), T(!new)>(f: (S, T) -> S, plusS: (S, S) -> S, plusT: (T, T) -> T) {
    forall a, b, u, v {:trigger f(plusS(a, b), plusT(u, v))} :: f(plusS(a, b), plusT(u, v)) == plusS(f(a, u), f(b, v))
  }

  lemma {:induction false} FoldZip<S(!new), T(!new)>(f: (S, T) -> S, plusS: (S, S) -> S, plusT: (T, T) -> T,
                                                    a: S, b: S, u: seq<T>, v: seq<T>)
    requires FoldsSums(f, plusS, plusT) && |u| == |v|
    ensures Fold(f, plusS(a, b), Zip(plusT, u, v)) == plusS(Fold(f, a, u), Fold(f, b, v))
    decreases |u|
  {
    if u != [] {
      assert f(plusS(a, b), plusT(u[0], v[0])) == plusS(f(a, u[0]), f(b, v[0]));
      FoldZip(f, plusS, plusT, f(a, u[0]), f(b, v[0]), u[1..], v[1..]);
      assert Zip(plusT, u, v)[1..] == Zip(plusT, u[1..], v[1..]);
    }
  }

  function Repeat<T>(z: T, n: nat): (r: seq<T>)
    ensures |r| == n && forall i :: 0 <= i < n ==> r[i] == z
  {
    if n == 0 then [] else [z] + Repeat(z, n - 1)
  }

  /** Feeding z again and again is iterating what one z does, seen through h. */
  lemma {:induction false} FoldRepeat<S(!new), T, U>(f: (S, T) -> S, g: U -> U, h: S -> U, z: T, c: S, n: nat)
    requires forall x {:trigger f(x, z)} :: h(f(x, z)) == g(h(x))
    ensures h(Fold(f, c, Repeat(z, n))) == Iter(g, n, h(c))
    decreases n
  {
    if n > 0 {
      assert Repeat(z, n)[1..] == Repeat(z, n - 1);
      assert h(f(c, z)) == g(h(c));
      FoldRepeat(f, g, h, z, f(c, z), n - 1);
      IterSum(g, n - 1, 1, h(c));
      assert Iter(g, 1, h(c)) == g(Iter(g, 0, h(c)));
    }
  }
}
