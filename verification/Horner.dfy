/** Polynomials of degree five evaluated by Horner's rule, over any addition and any
    "multiplication by the point". */
module Horner {
  import opened Iteration

  function Sum<T>(plus: (T, T) -> T, f: T -> T, c0: T, c1: T, c2: T, c3: T, c4: T, c5: T): T {
    plus(c5, f(plus(c4, f(plus(c3, f(plus(c2, f(plus(c1, f(c0))))))))))
  }

  ghost predicate Crosswise<T(!new)>(plus: (T, T) -> T) {
    forall a, b, c, d {:trigger plus(plus(a, b), plus(c, d))} :: plus(plus(a, b), plus(c, d)) == plus(plus(a, c), plus(b, d))
  }

  lemma RoundPlus<T(!new)>(plus: (T, T) -> T, f: T -> T, a: T, b: T, s: T, t: T, st: T)
    requires Crosswise(plus) && Additive(f, plus) && st == plus(s, t)
    ensures plus(plus(a, b), f(st)) == plus(plus(a, f(s)), plus(b, f(t)))
  {
    assert f(plus(s, t)) == plus(f(s), f(t));
    assert plus(plus(a, b), plus(f(s), f(t))) == plus(plus(a, f(s)), plus(b, f(t)));
  }

  lemma SumPlus<T(!new)>(plus: (T, T) -> T, f: T -> T, c0: T, c1: T, c2: T, c3: T, c4: T, c5: T,
                         d0: T, d1: T, d2: T, d3: T, d4: T, d5: T)
    requires Crosswise(plus) && Additive(f, plus)
    ensures Sum(plus, f, plus(c0, d0), plus(c1, d1), plus(c2, d2), plus(c3, d3), plus(c4, d4), plus(c5, d5))
         == plus(Sum(plus, f, c0, c1, c2, c3, c4, c5), Sum(plus, f, d0, d1, d2, d3, d4, d5))
  {
    var s1, t1 := plus(c1, f(c0)), plus(d1, f(d0));
    var s2, t2 := plus(c2, f(s1)), plus(d2, f(t1));
    var s3, t3 := plus(c3, f(s2)), plus(d3, f(t2));
    var s4, t4 := plus(c4, f(s3)), plus(d4, f(t3));
    RoundPlus(plus, f, c1, d1, c0, d0, plus(c0, d0));
    RoundPlus(plus, f, c2, d2, s1, t1, plus(s1, t1));
    RoundPlus(plus, f, c3, d3, s2, t2, plus(s2, t2));
    RoundPlus(plus, f, c4, d4, s3, t3, plus(s3, t3));
    RoundPlus(plus, f, c5, d5, s4, t4, plus(s4, t4));
  }

  /** A map that respects the addition and commutes with f passes through the sum. */
  lemma SumMap<T(!new)>(plus: (T, T) -> T, f: T -> T, g: T -> T, c0: T, c1: T, c2: T, c3: T, c4: T, c5: T)
    requires Additive(g, plus) && Commute(f, g)
    ensures g(Sum(plus, f, c0, c1, c2, c3, c4, c5)) == Sum(plus, f, g(c0), g(c1), g(c2), g(c3), g(c4), g(c5))
  {
    var s1 := plus(c1, f(c0));
    var s2 := plus(c2, f(s1));
    var s3 := plus(c3, f(s2));
    var s4 := plus(c4, f(s3));
    RoundMap(plus, f, g, c1, c0);
    RoundMap(plus, f, g, c2, s1);
    RoundMap(plus, f, g, c3, s2);
    RoundMap(plus, f, g, c4, s3);
    RoundMap(plus, f, g, c5, s4);
  }

  lemma RoundMap<T(!new)>(plus: (T, T) -> T, f: T -> T, g: T -> T, a: T, s: T)
    requires Additive(g, plus) && Commute(f, g)
    ensures g(plus(a, f(s))) == plus(g(a), f(g(s)))
  {
    assert g(plus(a, f(s))) == plus(g(a), g(f(s)));
    assert g(f(s)) == f(g(s));
  }

  ghost predicate Associative<T(!new)>(plus: (T, T) -> T) {
    forall a, b, c {:trigger plus(plus(a, b), c)} :: plus(plus(a, b), c) == plus(a, plus(b, c))
  }

  /** Dropping the leading coefficient c0 changes a round by f^k(c0). */
  lemma RoundDrop<T(!new)>(plus: (T, T) -> T, f: T -> T, a: T, s: T, t: T, d: T)
    requires Associative(plus) && Additive(f, plus) && t == plus(s, d)
    ensures plus(a, f(t)) == plus(plus(a, f(s)), f(d))
  {
    assert f(plus(s, d)) == plus(f(s), f(d));
    assert plus(plus(a, f(s)), f(d)) == plus(a, plus(f(s), f(d)));
  }

  /** Multiplying by the point and adding v shifts the coefficients up by one, and the
      leading one comes back as f^6(c0). */
  lemma SumShift<T(!new)>(plus: (T, T) -> T, f: T -> T, c0: T, c1: T, c2: T, c3: T, c4: T, c5: T, v: T)
    requires Associative(plus) && Additive(f, plus)
    ensures plus(v, f(Sum(plus, f, c0, c1, c2, c3, c4, c5)))
         == plus(Sum(plus, f, c1, c2, c3, c4, c5, v), f(f(f(f(f(f(c0)))))))
  {
    var s2, t2 := plus(c2, f(c1)), plus(c2, f(plus(c1, f(c0))));
    var s3, t3 := plus(c3, f(s2)), plus(c3, f(t2));
    var s4, t4 := plus(c4, f(s3)), plus(c4, f(t3));
    var s5, t5 := plus(c5, f(s4)), plus(c5, f(t4));
    var d := f(f(c0));
    RoundDrop(plus, f, c2, c1, plus(c1, f(c0)), f(c0));
    RoundDrop(plus, f, c3, s2, t2, d);
    RoundDrop(plus, f, c4, s3, t3, f(d));
    RoundDrop(plus, f, c5, s4, t4, f(f(d)));
    RoundDrop(plus, f, v, s5, t5, f(f(f(d))));
  }

  function Six<T>(f: T -> T, v: T): T { f(f(f(f(f(f(v)))))) }

  lemma SixCommute<T(!new)>(f: T -> T, g: T -> T, v: T)
    requires Commute(f, g)
    ensures g(Six(f, v)) == Six(f, g(v))
  {
    assert g(f(f(f(f(f(f(v))))))) == f(g(f(f(f(f(f(v)))))));
    assert g(f(f(f(f(f(v)))))) == f(g(f(f(f(f(v))))));
    assert g(f(f(f(f(v))))) == f(g(f(f(f(v)))));
    assert g(f(f(f(v)))) == f(g(f(f(v))));
    assert g(f(f(v))) == f(g(f(v)));
    assert g(f(v)) == f(g(v));
  }

  /** If the point is a root of x^6 + k0 x^5 + ... + k5, replacing the shifted-out leading
      coefficient c0 = g(one) by c0 times the k's keeps the value. */
  lemma SumReduced<T(!new)>(plus: (T, T) -> T, f: T -> T, g: T -> T, one: T, c0: T, c1: T, c2: T, c3: T, c4: T, c5: T, v: T,
                            k0: T, k1: T, k2: T, k3: T, k4: T, k5: T)
    requires Crosswise(plus) && Associative(plus) && Additive(f, plus) && Additive(g, plus) && Commute(f, g)
    requires c0 == g(one) && Six(f, one) == Sum(plus, f, k0, k1, k2, k3, k4, k5)
    ensures Sum(plus, f, plus(c1, g(k0)), plus(c2, g(k1)), plus(c3, g(k2)), plus(c4, g(k3)), plus(c5, g(k4)), plus(v, g(k5)))
         == plus(v, f(Sum(plus, f, c0, c1, c2, c3, c4, c5)))
  {
    SumPlus(plus, f, c1, c2, c3, c4, c5, v, g(k0), g(k1), g(k2), g(k3), g(k4), g(k5));
    SumMap(plus, f, g, k0, k1, k2, k3, k4, k5);
    SixCommute(f, g, one);
    SumShift(plus, f, c0, c1, c2, c3, c4, c5, v);
  }

  /** Horner's rule multiplied out. */
  lemma SumExpanded<T(!new)>(plus: (T, T) -> T, f: T -> T, c0: T, c1: T, c2: T, c3: T, c4: T, c5: T)
    requires Associative(plus) && Additive(f, plus)
    ensures Sum(plus, f, c0, c1, c2, c3, c4, c5)
         == plus(plus(plus(plus(plus(c5, f(c4)), f(f(c3))), f(f(f(c2)))), f(f(f(f(c1))))), f(f(f(f(f(c0))))))
  {
    var s1 := plus(c1, f(c0));
    var s2 := plus(c2, f(s1));
    var s3 := plus(c3, f(s2));
    RoundExpanded(plus, f, c2, c1, f(c0));
    RoundExpanded2(plus, f, c3, c2, f(c1), f(f(c0)));
    RoundExpanded3(plus, f, c4, c3, f(c2), f(f(c1)), f(f(f(c0))));
    RoundExpanded4(plus, f, c5, c4, f(c3), f(f(c2)), f(f(f(c1))), f(f(f(f(c0)))));
  }

  lemma RoundExpanded<T(!new)>(plus: (T, T) -> T, f: T -> T, a: T, b: T, c: T)
    requires Associative(plus) && Additive(f, plus)
    ensures plus(a, f(plus(b, c))) == plus(plus(a, f(b)), f(c))
  {
    RoundDrop(plus, f, a, b, plus(b, c), c);
  }

  lemma RoundExpanded2<T(!new)>(plus: (T, T) -> T, f: T -> T, a: T, b: T, c: T, d: T)
    requires Associative(plus) && Additive(f, plus)
    ensures plus(a, f(plus(plus(b, c), d))) == plus(plus(plus(a, f(b)), f(c)), f(d))
  {
    RoundExpanded(plus, f, a, plus(b, c), d);
    RoundExpanded(plus, f, a, b, c);
  }

  lemma RoundExpanded3<T(!new)>(plus: (T, T) -> T, f: T -> T, a: T, b: T, c: T, d: T, e: T)
    requires Associative(plus) && Additive(f, plus)
    ensures plus(a, f(plus(plus(plus(b, c), d), e))) == plus(plus(plus(plus(a, f(b)), f(c)), f(d)), f(e))
  {
    RoundExpanded(plus, f, a, plus(plus(b, c), d), e);
    RoundExpanded2(plus, f, a, b, c, d);
  }

  lemma RoundExpanded4<T(!new)>(plus: (T, T) -> T, f: T -> T, a: T, b: T, c: T, d: T, e: T, g: T)
    requires Associative(plus) && Additive(f, plus)
    ensures plus(a, f(plus(plus(plus(plus(b, c), d), e), g))) == plus(plus(plus(plus(plus(a, f(b)), f(c)), f(d)), f(e)), f(g))
  {
    RoundExpanded(plus, f, a, plus(plus(plus(b, c), d), e), g);
    RoundExpanded3(plus, f, a, b, c, d, e);
  }

  /** Five terms added one by one to a base are the image of their sum. */
  lemma FiveTerms<T(!new)>(plus: (T, T) -> T, h: T -> T, base: T, a: T, b: T, c: T, d: T, e: T)
    requires Associative(plus) && Additive(h, plus)
    ensures plus(plus(plus(plus(plus(base, h(a)), h(b)), h(c)), h(d)), h(e)) == plus(base, h(plus(plus(plus(plus(a, b), c), d), e)))
  {
    RoundExpanded4(plus, h, base, a, b, c, d, e);
  }
}
