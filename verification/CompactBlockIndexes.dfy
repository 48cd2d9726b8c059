/** Ascending indexes sent as differences (src/blockencodings.h, DifferenceFormatter). */
module CompactBlockIndexes {

  const MAX64: int := 0xffff_ffff_ffff_ffff

  datatype Indexes = Overflow | Good(list: seq<nat>)

  class DifferenceFormatter {
    var shift: nat

    constructor ()
      ensures shift == 0
    {
      shift := 0;
    }

    method Ser(v: nat) returns (ok: bool, n: nat)
      modifies this
      ensures ok <==> old(shift) <= v < MAX64
      ensures ok ==> n == v - old(shift) && shift == v + 1
      ensures !ok ==> shift == old(shift)
    {
      n := 0;
      if v < shift || v >= MAX64 {
        return false, n;
      }
      n := v - shift;
      shift := v + 1;
      return true, n;
    }

    /** The sum wraps in 64 bits, and the wrap is noticed. */
    method Unser(n: nat, limit: nat) returns (ok: bool, v: nat)
      requires n <= MAX64 && shift <= MAX64
      modifies this
      ensures ok <==> old(shift) + n < MAX64 && old(shift) + n <= limit
      ensures ok ==> v == old(shift) + n && shift == v + 1
    {
      v := 0;
      shift := (shift + n) % (MAX64 + 1);
      if shift < n || shift >= MAX64 || shift > limit {
        return false, v;
      }
      v := shift;
      shift := shift + 1;
      return true, v;
    }
  }

  /** All values of a vector through Ser. */
  function Differences(vs: seq<nat>, shift: nat): Indexes {
    if vs == [] then Good([])
    else if vs[0] < shift || vs[0] >= MAX64 then Overflow
    else match Differences(vs[1..], vs[0] + 1)
         case Overflow => Overflow
         case Good(rest) => Good([vs[0] - shift] + rest)
  }

  /** All numbers of a vector through Unser. */
  function Sums(ns: seq<nat>, shift: nat, limit: nat): Indexes {
    if ns == [] then Good([])
    else if shift + ns[0] >= MAX64 || shift + ns[0] > limit then Overflow
    else match Sums(ns[1..], shift + ns[0] + 1, limit)
         case Overflow => Overflow
         case Good(rest) => Good([shift + ns[0]] + rest)
  }

  predicate Ascending(vs: seq<nat>, shift: nat) {
    (|vs| > 0 ==> shift <= vs[0]) && forall i, j :: 0 <= i < j < |vs| ==> vs[i] < vs[j]
  }

  /** Exactly the strictly ascending lists can be written. */
  lemma {:induction false} WritableIsAscending(vs: seq<nat>, shift: nat)
    ensures Differences(vs, shift).Good? <==> Ascending(vs, shift) && forall i :: 0 <= i < |vs| ==> vs[i] < MAX64
  {
    if vs != [] {
      WritableIsAscending(vs[1..], vs[0] + 1);
      if Ascending(vs[1..], vs[0] + 1) {
        forall j | 0 < j < |vs| ensures vs[0] < vs[j] { assert vs[j] == vs[1..][j - 1]; }
        forall i, j | 0 < i < j < |vs| ensures vs[i] < vs[j] { assert vs[i] == vs[1..][i - 1] && vs[j] == vs[1..][j - 1]; }
      }
      assert forall i :: 0 < i < |vs| ==> vs[i] == vs[1..][i - 1];
    }
  }

  /** Reading what was written gives the list back when it fits the index type, and fails
      otherwise. */
  lemma {:induction false} SumsOfDifferences(vs: seq<nat>, shift: nat, limit: nat)
    requires Differences(vs, shift).Good?
    ensures (forall i :: 0 <= i < |vs| ==> vs[i] <= limit) ==> Sums(Differences(vs, shift).list, shift, limit) == Good(vs)
    ensures (exists i :: 0 <= i < |vs| && vs[i] > limit) ==> Sums(Differences(vs, shift).list, shift, limit) == Overflow
  {
    if vs != [] {
      var ns := Differences(vs, shift).list;
      SumsOfDifferences(vs[1..], vs[0] + 1, limit);
      assert ns[1..] == Differences(vs[1..], vs[0] + 1).list;
      assert forall i :: 0 < i < |vs| ==> vs[i] == vs[1..][i - 1];
    }
  }

  /** Writing what was read gives the numbers back. */
  lemma {:induction false} DifferencesOfSums(ns: seq<nat>, shift: nat, limit: nat)
    requires Sums(ns, shift, limit).Good?
    ensures Differences(Sums(ns, shift, limit).list, shift) == Good(ns)
  {
    if ns != [] {
      var vs := Sums(ns, shift, limit).list;
      DifferencesOfSums(ns[1..], shift + ns[0] + 1, limit);
      assert vs[1..] == Sums(ns[1..], shift + ns[0] + 1, limit).list;
    }
  }

  method Write(vs: seq<nat>) returns (r: Indexes)
    ensures r == Differences(vs, 0)
  {
    var f := new DifferenceFormatter();
    var ns: seq<nat> := [];
    assert vs[0..] == vs;
    for i := 0 to |vs|
      invariant Differences(vs, 0) == Prepended(ns, Differences(vs[i..], f.shift))
    {
      assert vs[i..][1..] == vs[i + 1..];
      var ok, n := f.Ser(vs[i]);
      if !ok {
        return Overflow;
      }
      ns := ns + [n];
    }
    return Good(ns);
  }

  function Prepended(ns: seq<nat>, r: Indexes): Indexes {
    match r
    case Overflow => Overflow
    case Good(rest) => Good(ns + rest)
  }

  method ReadBack(ns: seq<nat>, limit: nat) returns (r: Indexes)
    requires limit <= 65535 && forall i :: 0 <= i < |ns| ==> ns[i] <= MAX64
    ensures r == Sums(ns, 0, limit)
  {
    var f := new DifferenceFormatter();
    var vs: seq<nat> := [];
    assert ns[0..] == ns;
    for i := 0 to |ns|
      invariant f.shift <= limit + 1 && Sums(ns, 0, limit) == Prepended(vs, Sums(ns[i..], f.shift, limit))
    {
      assert ns[i..][1..] == ns[i + 1..];
      var ok, v := f.Unser(ns[i], limit);
      if !ok {
        return Overflow;
      }
      vs := vs + [v];
    }
    return Good(vs);
  }
}
