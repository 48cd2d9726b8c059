/** Golomb-coded sets: building a filter and matching against it (src/blockfilter.cpp). */
module BlockFilter {
  import opened Wrappers
  import opened Bits
  import opened BitStream
  import opened GolombRice
  import opened CompactSize
  import Limbs

  type Element = seq<nat>

  /** hash stands for the keyed hash of an element. */
  datatype Params = Params(P: nat, M: nat, hash: Element -> nat)

  datatype Filter = Filter(n: nat, f: nat, encoded: seq<nat>)

  const LIMIT := 0x1_0000_0000

  // ---------- Hashes ----------

  /** The upper word of the product. */
  function FastRange(x: nat, n: nat): nat { (x * n) / WORD }

  function HashToRange(p: Params, f: nat, e: Element): nat { FastRange(Word(p.hash(e)), f) }

  function Hashes(p: Params, f: nat, elements: seq<Element>): seq<nat> {
    seq(|elements|, i requires 0 <= i < |elements| => HashToRange(p, f, elements[i]))
  }

  /** Each value is at least the one before it, the first at least last. */
  predicate From(last: nat, s: seq<nat>)
    decreases s
  {
    s == [] || (last <= s[0] && From(s[0], s[1..]))
  }

  predicate Ascending(s: seq<nat>) { From(0, s) }

  lemma {:induction false} FromAll(last: nat, s: seq<nat>, x: nat)
    requires From(last, s) && x in s
    ensures x >= last
    decreases s
  {
    if x != s[0] {
      FromAll(s[0], s[1..], x);
    }
  }

  lemma FromLower(last: nat, s: seq<nat>)
    requires From(last, s)
    ensures Ascending(s)
  {
  }

  function Insert(x: nat, s: seq<nat>): seq<nat> {
    if s == [] || x <= s[0] then [x] + s else [s[0]] + Insert(x, s[1..])
  }

  function Sort(s: seq<nat>): seq<nat> { if s == [] then [] else Insert(s[0], Sort(s[1..])) }

  lemma {:induction false} InsertSorts(x: nat, last: nat, s: seq<nat>)
    requires From(last, s) && last <= x
    ensures From(last, Insert(x, s)) && multiset(Insert(x, s)) == multiset(s) + multiset{x}
    decreases s
  {
    if s == [] || x <= s[0] {
      assert ([x] + s)[1..] == s;
    } else {
      assert s == [s[0]] + s[1..];
      InsertSorts(x, s[0], s[1..]);
      assert ([s[0]] + Insert(x, s[1..]))[1..] == Insert(x, s[1..]);
    }
  }

  lemma {:induction false} SortSorts(s: seq<nat>)
    ensures Ascending(Sort(s)) && multiset(Sort(s)) == multiset(s)
  {
    if s != [] {
      assert s == [s[0]] + s[1..];
      SortSorts(s[1..]);
      InsertSorts(s[0], 0, Sort(s[1..]));
    }
  }

  method BuildHashedSet(p: Params, f: nat, elements: seq<Element>) returns (hashed: seq<nat>)
    ensures hashed == Sort(Hashes(p, f, elements))
    ensures forall v :: v in hashed <==> exists e :: e in elements && v == p.hash(e) % WORD * f / WORD
  {
    hashed := [];
    for i := 0 to |elements|
      invariant hashed == Hashes(p, f, elements[..i])
    {
      hashed := hashed + [HashToRange(p, f, elements[i])];
    }
    assert elements[..|elements|] == elements;
    hashed := Sort(hashed);
    forall v ensures v in hashed <==> exists e :: e in elements && v == p.hash(e) % WORD * f / WORD { SortedHash(p, f, elements, v); }
  }

  const HALF := 0x1_0000_0000

  /** The product in four parts, as where no 128-bit integers exist. */
  function FastRangeParts(ac: nat, ad: nat, bc: nat, bd: nat): nat {
    var mid34 := bd / HALF + bc % HALF + ad % HALF;
    ac + bc / HALF + ad / HALF + mid34 / HALF
  }

  /** The four partial products give the same upper word. */
  lemma FastRangeSame(x: nat, n: nat)
    requires x < WORD && n < WORD
    ensures FastRangeParts((x / HALF) * (n / HALF), (x / HALF) * (n % HALF), (x % HALF) * (n / HALF), (x % HALF) * (n % HALF)) == FastRange(x, n)
  {
    var xh, xl, nh, nl := x / HALF, x % HALF, n / HALF, n % HALF;
    assert x == xh * HALF + xl && n == nh * HALF + nl;
    Expand(xh, xl, nh, nl);
    PartsSum(xh * nh, xh * nl, xl * nh, xl * nl, x * n);
  }

  lemma Expand(xh: nat, xl: nat, nh: nat, nl: nat)
    ensures (xh * HALF + xl) * (nh * HALF + nl) == (xh * nh) * WORD + (xh * nl + xl * nh) * HALF + xl * nl
  {
    assert (xh * HALF + xl) * (nh * HALF + nl) == (xh * HALF + xl) * (nh * HALF) + (xh * HALF + xl) * nl;
    assert (xh * HALF + xl) * (nh * HALF) == (xh * nh) * WORD + (xl * nh) * HALF;
    assert (xh * HALF + xl) * nl == (xh * nl) * HALF + xl * nl;
  }

  lemma PartsSum(ac: nat, ad: nat, bc: nat, bd: nat, product: nat)
    requires product == ac * WORD + (ad + bc) * HALF + bd
    ensures FastRangeParts(ac, ad, bc, bd) == product / WORD
  {
    var mid34 := bd / HALF + bc % HALF + ad % HALF;
    var low := (mid34 % HALF) * HALF + bd % HALF;
    assert product == WORD * FastRangeParts(ac, ad, bc, bd) + low;
  }

  lemma FastRangeBound(x: nat, n: nat)
    requires x < WORD && n > 0
    ensures FastRange(x, n) < n
  {
    Limbs.MulGrows(WORD - x, n);
    assert (WORD - x) * n == WORD * n - x * n;
  }

  lemma SortedHash(p: Params, f: nat, elements: seq<Element>, v: nat)
    ensures v in Sort(Hashes(p, f, elements)) <==> exists e :: e in elements && HashToRange(p, f, e) == v
  {
    var s := Hashes(p, f, elements);
    SortSorts(s);
    assert v in Sort(s) <==> v in multiset(s);
    assert v in multiset(s) <==> v in s;
    if v in s {
      var i :| 0 <= i < |s| && s[i] == v;
      assert elements[i] in elements;
    }
    if e :| e in elements && HashToRange(p, f, e) == v {
      var i :| 0 <= i < |elements| && elements[i] == e;
      assert s[i] == v;
    }
  }

  // ---------- Building ----------

  /** The differences of the values, one code word each. */
  function FilterBits(code: Code, values: seq<nat>, last: nat): seq<bool>
    requires From(last, values)
  {
    if values == [] then [] else code(values[0] - last) + FilterBits(code, values[1..], values[0])
  }

  lemma {:induction false} FromPrefix(last: nat, values: seq<nat>, v: nat)
    requires From(last, values + [v])
    ensures From(last, values) && (if values == [] then last else values[|values| - 1]) <= v
    decreases values
  {
    if values != [] {
      assert (values + [v])[1..] == values[1..] + [v];
      FromPrefix(values[0], values[1..], v);
    }
  }

  /** Each value adds the code of its distance to the one before. */
  lemma {:induction false} FilterNext(code: Code, values: seq<nat>, last: nat, v: nat)
    requires From(last, values + [v])
    ensures From(last, values)
    ensures var before := if values == [] then last else values[|values| - 1];
      before <= v && FilterBits(code, values + [v], last) == FilterBits(code, values, last) + code(v - before)
    decreases values
  {
    FromPrefix(last, values, v);
    if values == [] {
      assert (values + [v])[1..] == [] && code(v - last) + [] == [] + code(v - last);
    } else {
      assert (values + [v])[1..] == values[1..] + [v];
      FilterNext(code, values[1..], values[0], v);
    }
  }

  /** The bytes hold the bits, and fewer than eight zeros after them. */
  ghost predicate Packed(body: seq<nat>, bits: seq<bool>) {
    && IsBytes(body)
    && |bits| <= |BytesBits(body)| < |bits| + 8
    && BytesBits(body) == bits + Repeated(false, |BytesBits(body)| - |bits|)
  }

  ghost function SortedHashes(p: Params, f: nat, elements: seq<Element>): (s: seq<nat>)
    ensures Ascending(s) && |s| == |elements|
  {
    SortSorts(Hashes(p, f, elements));
    assert |multiset(Sort(Hashes(p, f, elements)))| == |Sort(Hashes(p, f, elements))|;
    Sort(Hashes(p, f, elements))
  }

  ghost predicate Built(p: Params, elements: seq<Element>, filter: Filter) {
    && filter.n == |elements| < LIMIT
    && filter.f == |elements| * p.M
    && WriteCompactSize(filter.n) <= filter.encoded
    && Packed(filter.encoded[|WriteCompactSize(filter.n)|..], FilterBits(GolombCode(p.P), SortedHashes(p, filter.f, elements), 0))
  }

  /** With the bits done and the values from k on still to come, the target will be reached. */
  ghost predicate TodoAt(code: Code, values: seq<nat>, last: nat, done: seq<bool>, target: seq<bool>, k: int) {
    0 <= k <= |values| ==> From(last, values[k..]) && done + FilterBits(code, values[k..], last) == target
  }

  ghost predicate Todo(code: Code, values: seq<nat>, i: nat, last: nat, done: seq<bool>, target: seq<bool>) {
    forall k {:trigger TodoAt(code, values, last, done, target, k)} :: k == i ==> TodoAt(code, values, last, done, target, k)
  }

  lemma TodoStep(code: Code, values: seq<nat>, i: nat, last: nat, done: seq<bool>, target: seq<bool>)
    requires i < |values| && Todo(code, values, i, last, done, target)
    ensures last <= values[i] && Todo(code, values, i + 1, values[i], done + code(values[i] - last), target)
  {
    assert TodoAt(code, values, last, done, target, i);
    assert values[i..][1..] == values[i + 1..];
    Regroup(done, code(values[i] - last), FilterBits(code, values[i + 1..], values[i]));
  }

  lemma TodoEnds(code: Code, values: seq<nat>, last: nat, done: seq<bool>, target: seq<bool>)
    requires Ascending(values)
    ensures Todo(code, values, 0, 0, [], FilterBits(code, values, 0))
    ensures Todo(code, values, |values|, last, done, target) ==> done == target
  {
    assert values[0..] == values;
    assert [] + FilterBits(code, values, 0) == FilterBits(code, values, 0);
    if Todo(code, values, |values|, last, done, target) {
      assert TodoAt(code, values, last, done, target, |values|);
      assert done + [] == done;
    }
  }

  method WriteValues(writer: BitStreamWriter, P: nat, values: seq<nat>, ghost code: Code)
    requires writer.Valid() && writer.Bits() == [] && P < 64 && IsGolombCode(P, code) && Ascending(values)
    modifies writer
    ensures writer.Valid() && writer.Bits() == FilterBits(code, values, 0)
  {
    var last := 0;
    ghost var target := FilterBits(code, values, 0);
    TodoEnds(code, values, last, [], target);
    for i := 0 to |values|
      invariant writer.Valid() && Todo(code, values, i, last, writer.Bits(), target)
    {
      TodoStep(code, values, i, last, writer.Bits(), target);
      EncodeNext(writer, P, values[i] - last, code);
      last := values[i];
    }
    TodoEnds(code, values, last, writer.Bits(), target);
  }

  lemma Regroup<T>(a: seq<T>, b: seq<T>, c: seq<T>)
    ensures a + (b + c) == (a + b) + c
  {
  }

  method BuildFilter(p: Params, elements: seq<Element>) returns (r: Option<Filter>)
    requires p.P < 64 && p.M < LIMIT
    ensures r.Some? <==> |elements| < LIMIT
    ensures r.Some? ==> Built(p, elements, r.value)
  {
    var n := |elements|;
    if n >= LIMIT {
      return None;
    }
    var f := n * p.M;
    var size := WriteCompactSize(n);
    var body := [];
    if n > 0 {
      var hashed := BuildHashedSet(p, f, elements);
      SortSorts(Hashes(p, f, elements));
      body := PackValues(p.P, hashed);
    }
    assert (size + body)[..|size|] == size && (size + body)[|size|..] == body;
    r := Some(Filter(n, f, size + body));
  }

  method PackValues(P: nat, values: seq<nat>) returns (body: seq<nat>)
    requires P < 64 && Ascending(values)
    ensures Packed(body, FilterBits(GolombCode(P), values, 0))
  {
    var writer := new BitStreamWriter();
    GolombCodeIs(P);
    WriteValues(writer, P, values, GolombCode(P));
    writer.Flush();
    body := writer.out;
  }
}
