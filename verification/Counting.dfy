/** A pigeonhole argument: as many distinct values as there are places fill every place. */
module Counting {
  import opened Sets

  ghost function Image(f: nat -> int, n: nat): set<int> {
    if n == 0 then {} else Image(f, n - 1) + {f(n - 1)}
  }

  lemma {:induction false} ImageMember(f: nat -> int, n: nat, x: int)
    requires x in Image(f, n)
    ensures exists i: nat {:trigger f(i)} :: i < n && f(i) == x
  {
    if x == f(n - 1) {
    } else {
      ImageMember(f, n - 1, x);
    }
  }

  ghost predicate DistinctUpTo(f: nat -> int, n: nat) {
    forall i: nat, j: nat {:trigger f(i), f(j)} :: i < j < n ==> f(i) != f(j)
  }

  lemma {:induction false} ImageSize(f: nat -> int, n: nat)
    requires DistinctUpTo(f, n)
    ensures |Image(f, n)| == n
  {
    if n > 0 {
      ImageSize(f, n - 1);
      if f(n - 1) in Image(f, n - 1) {
        ImageMember(f, n - 1, f(n - 1));
      }
    }
  }

  lemma {:induction false} RangeSize(s: set<int>, n: nat)
    requires forall x {:trigger x in s} :: x in s ==> 0 < x <= n
    ensures |s| <= n
  {
    if n == 0 {
      SameSet(s, {});
    } else {
      var t := s - {n};
      RangeSize(t, n - 1);
      assert n in s ==> s == t + {n};
      assert n !in s ==> s == t;
    }
  }

  /** n distinct values between 1 and n: every number between 1 and n is a value. */
  lemma Onto(f: nat -> int, n: nat, x: int) returns (i: nat)
    requires DistinctUpTo(f, n) && (forall i: nat {:trigger f(i)} :: i < n ==> 0 < f(i) <= n)
    requires 0 < x <= n
    ensures i < n && f(i) == x
  {
    var s := Image(f, n);
    ImageSize(f, n);
    forall y | y in s ensures 0 < y <= n { ImageMember(f, n, y); }
    RangeSize(s + {x}, n);
    ImageMember(f, n, x);
    i :| i < n && f(i) == x;
  }
}
