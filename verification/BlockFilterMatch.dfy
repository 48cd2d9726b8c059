/** Matching against a filter, and reading one back (src/blockfilter.cpp). */
module BlockFilterMatch {
  import opened Wrappers
  import opened Bits
  import opened BitStream
  import opened GolombRice
  import opened CompactSize
  import opened BlockFilter
  import Limbs

  // ---------- The merge ----------

  function SkipBelow(queries: seq<nat>, v: nat): seq<nat> {
    if queries != [] && queries[0] < v then SkipBelow(queries[1..], v) else queries
  }

  /** What the loop still decides, with n codes to read and the last value known. */
  function MatchFrom(read: Reading, n: nat, bits: seq<bool>, value: nat, queries: seq<nat>): Option<bool>
    decreases n
  {
    if n == 0 then Some(false)
    else
      match read(bits)
      case None => None
      case Some(found) =>
        var v := Word(value + found.value);
        var rest := SkipBelow(queries, v);
        if rest == [] then Some(false)
        else if rest[0] == v then Some(true)
        else MatchFrom(read, n - 1, found.rest, v, rest)
  }

  lemma MatchStep(read: Reading, n: nat, bits: seq<bool>, value: nat, queries: seq<nat>)
    requires n > 0
    ensures read(bits).None? ==> MatchFrom(read, n, bits, value, queries) == None
    ensures read(bits).Some? ==>
      var found := read(bits).value;
      var v := Word(value + found.value);
      var rest := SkipBelow(queries, v);
      MatchFrom(read, n, bits, value, queries) ==
        if rest == [] then Some(false) else if rest[0] == v then Some(true) else MatchFrom(read, n - 1, found.rest, v, rest)
  {
  }

  /** The outcome for a whole filter; None where the source throws. */
  ghost function Matches(p: Params, encoded: seq<nat>, queries: seq<nat>): Option<bool> {
    match ReadCompactSize(encoded)
    case None => None
    case Some(sized) => MatchFrom(GolombReading(p.P), sized.size, BytesBits(sized.rest), 0, queries)
  }

  method SkipTo(queries: seq<nat>, from: nat, v: nat) returns (index: nat)
    requires from <= |queries|
    ensures from <= index <= |queries| && queries[index..] == SkipBelow(queries[from..], v)
  {
    index := from;
    while index < |queries| && queries[index] < v
      invariant from <= index <= |queries| && SkipBelow(queries[index..], v) == SkipBelow(queries[from..], v)
    {
      assert queries[index..][1..] == queries[index + 1..];
      index := index + 1;
    }
  }

  /** N is the count of the filter, which its encoding also starts with. */
  method MatchInternal(p: Params, filter: Filter, queries: seq<nat>) returns (r: Option<bool>)
    requires p.P < 64 && IsBytes(filter.encoded)
    requires ReadCompactSize(filter.encoded).Some? ==> ReadCompactSize(filter.encoded).value.size == filter.n
    ensures r == Matches(p, filter.encoded, queries)
  {
    var sized := ReadCompactSize(filter.encoded);
    if sized.None? {
      return None;
    }
    GolombIs(p.P);
    r := MatchCodes(p.P, filter.n, sized.value.rest, queries, GolombReading(p.P));
  }

  method MatchCodes(P: nat, n: nat, bytes: seq<nat>, queries: seq<nat>, ghost read: Reading) returns (r: Option<bool>)
    requires P < 64 && IsBytes(bytes) && IsGolomb(P, read)
    ensures r == MatchFrom(read, n, BytesBits(bytes), 0, queries)
  {
    var reader := new BitStreamReader(bytes);
    var value: nat, index: nat := 0, 0;
    assert queries[index..] == queries;
    ghost var target := MatchFrom(read, n, BytesBits(bytes), 0, queries);
    for i := 0 to n
      invariant fresh(reader) && reader.Valid() && index <= |queries|
      invariant target == MatchFrom(read, n - i, reader.Remaining(), value, queries[index..])
    {
      MatchStep(read, n - i, reader.Remaining(), value, queries[index..]);
      var delta := DecodeNext(reader, P, read);
      if delta.None? {
        return None;
      }
      value := Word(value + delta.value);
      index := SkipTo(queries, index, value);
      if index == |queries| {
        return Some(false);
      }
      if queries[index] == value {
        return Some(true);
      }
    }
    r := Some(false);
  }

  method Match(p: Params, filter: Filter, element: Element) returns (r: Option<bool>)
    requires p.P < 64 && IsBytes(filter.encoded)
    requires ReadCompactSize(filter.encoded).Some? ==> ReadCompactSize(filter.encoded).value.size == filter.n
    ensures r == Matches(p, filter.encoded, [HashToRange(p, filter.f, element)])
  {
    var query := HashToRange(p, filter.f, element);
    r := MatchInternal(p, filter, [query]);
  }

  method MatchAny(p: Params, filter: Filter, elements: seq<Element>) returns (r: Option<bool>)
    requires p.P < 64 && IsBytes(filter.encoded)
    requires ReadCompactSize(filter.encoded).Some? ==> ReadCompactSize(filter.encoded).value.size == filter.n
    ensures r == Matches(p, filter.encoded, SortedHashes(p, filter.f, elements))
  {
    var queries := BuildHashedSet(p, filter.f, elements);
    r := MatchInternal(p, filter, queries);
  }

  // ---------- What the merge finds ----------

  predicate Common(a: seq<nat>, b: seq<nat>) { exists i :: 0 <= i < |a| && a[i] in b }

  lemma {:induction false} SkipKeeps(queries: seq<nat>, last: nat, v: nat)
    requires From(last, queries)
    ensures var r := SkipBelow(queries, v); From(last, r) && From(v, r) && (forall x :: x in r <==> x in queries && x >= v)
  {
    if queries != [] {
      assert queries == [queries[0]] + queries[1..];
      if queries[0] < v {
        SkipKeeps(queries[1..], queries[0], v);
      } else {
        forall x | x in queries ensures x >= v {
          FromAll(queries[0], queries, x);
        }
      }
    }
  }

  predicate Words(s: seq<nat>) { forall i :: 0 <= i < |s| ==> s[i] < WORD }

  /** One value of the filter against the queries. */
  lemma CommonStep(values: seq<nat>, queries: seq<nat>)
    requires values != [] && Ascending(values) && Ascending(queries)
    ensures var rest := SkipBelow(queries, values[0]);
      && Ascending(rest)
      && (Common(values, queries) <==> rest != [] && (rest[0] == values[0] || Common(values[1..], rest)))
  {
    SkipKeeps(queries, 0, values[0]);
    var rest := SkipBelow(queries, values[0]);
    if rest != [] {
      assert rest[0] in rest;
    }
    if Common(values, queries) {
      CommonLeft(values, queries, rest);
    }
    if rest != [] && Common(values[1..], rest) {
      var i :| 0 <= i < |values[1..]| && values[1..][i] in rest;
      assert values[i + 1] in queries;
    }
  }

  lemma CommonLeft(values: seq<nat>, queries: seq<nat>, rest: seq<nat>)
    requires values != [] && Ascending(values) && Ascending(rest) && Common(values, queries)
    requires forall x :: x in rest <==> x in queries && x >= values[0]
    ensures rest != [] && (rest[0] == values[0] || Common(values[1..], rest))
  {
    var i :| 0 <= i < |values| && values[i] in queries;
    FromAll(values[0], values, values[i]);
    assert values[i] in rest;
    FromAll(rest[0], rest, values[i]);
    assert rest[0] in rest;
    if i > 0 {
      assert values[1..][i - 1] in rest;
    }
  }

  /** Over the codes of a sorted list, the merge decides whether the two lists share a member. */
  lemma {:induction false} MergeIsCommon(code: Code, read: Reading, values: seq<nat>, last: nat, rest: seq<bool>, queries: seq<nat>)
    requires Decodable(code, read) && From(last, values) && Words(values) && Ascending(queries)
    ensures MatchFrom(read, |values|, FilterBits(code, values, last) + rest, last, queries) == Some(Common(values, queries))
    decreases |values|
  {
    if values != [] {
      var v := values[0];
      var tail := FilterBits(code, values[1..], v);
      assert Inverts(code, read, v - last, tail + rest);
      Regroup(code(v - last), tail, rest);
      MatchStep(read, |values|, FilterBits(code, values, last) + rest, last, queries);
      WordSmall(v);
      CommonStep(values, queries);
      FromLower(v, values[1..]);
      MergeIsCommon(code, read, values[1..], v, rest, SkipBelow(queries, v));
    }
  }

  // ---------- Built filters ----------

  ghost predicate SameHash(p: Params, f: nat, elements: seq<Element>, queries: seq<Element>) {
    exists e, q :: e in elements && q in queries && HashToRange(p, f, e) == HashToRange(p, f, q)
  }

  lemma CommonIsSame(p: Params, f: nat, elements: seq<Element>, queries: seq<Element>)
    ensures Common(SortedHashes(p, f, elements), SortedHashes(p, f, queries)) <==> SameHash(p, f, elements, queries)
  {
    var a, b := SortedHashes(p, f, elements), SortedHashes(p, f, queries);
    if Common(a, b) {
      var i :| 0 <= i < |a| && a[i] in b;
      SortedHash(p, f, elements, a[i]);
      SortedHash(p, f, queries, a[i]);
    }
    if e, q :| e in elements && q in queries && HashToRange(p, f, e) == HashToRange(p, f, q) {
      var v := HashToRange(p, f, e);
      SortedHash(p, f, elements, v);
      SortedHash(p, f, queries, v);
      var i :| 0 <= i < |a| && a[i] == v;
    }
  }

  lemma HashesAreWords(p: Params, elements: seq<Element>, f: nat)
    requires f < WORD
    ensures Words(SortedHashes(p, f, elements))
  {
    var s := SortedHashes(p, f, elements);
    forall i | 0 <= i < |s| ensures s[i] < WORD {
      SortedHash(p, f, elements, s[i]);
      var e :| e in elements && HashToRange(p, f, e) == s[i];
      if f > 0 {
        FastRangeBound(Word(p.hash(e)), f);
      }
    }
  }

  lemma ProductIsWord(n: nat, m: nat)
    requires n < LIMIT && m < LIMIT
    ensures n * m < WORD
  {
    Limbs.MulMono(n, m, LIMIT - 1, LIMIT - 1);
  }

  /**
   * MatchAny on a filter built from elements is true exactly when some element and some query have
   * the same hash. The size that is read back is limited, so a larger filter cannot be matched at all.
   */
  lemma MatchAnyIs(p: Params, elements: seq<Element>, filter: Filter, queries: seq<Element>)
    requires p.M < LIMIT && Built(p, elements, filter)
    ensures Matches(p, filter.encoded, SortedHashes(p, filter.f, queries)) ==
      if |elements| <= MAX_SIZE then Some(SameHash(p, filter.f, elements, queries)) else None
  {
    MatchBuilt(p, elements, filter, SortedHashes(p, filter.f, queries));
    CommonIsSame(p, filter.f, elements, queries);
  }

  lemma MatchBuilt(p: Params, elements: seq<Element>, filter: Filter, queries: seq<nat>)
    requires p.M < LIMIT && Built(p, elements, filter) && Ascending(queries)
    ensures Matches(p, filter.encoded, queries) ==
      if |elements| <= MAX_SIZE then Some(Common(SortedHashes(p, filter.f, elements), queries)) else None
  {
    var body, pad := BuiltParts(p, elements, filter);
    if |elements| <= MAX_SIZE {
      var values := SortedHashes(p, filter.f, elements);
      ProductIsWord(|elements|, p.M);
      HashesAreWords(p, elements, filter.f);
      GolombDecodable(p.P);
      MergeIsCommon(GolombCode(p.P), GolombReading(p.P), values, 0, Repeated(false, pad), queries);
    }
  }

  lemma BuiltParts(p: Params, elements: seq<Element>, filter: Filter) returns (body: seq<nat>, pad: nat)
    requires Built(p, elements, filter)
    ensures ReadCompactSize(filter.encoded) == if |elements| <= MAX_SIZE then Some(Sized(|elements|, body)) else None
    ensures BytesBits(body) == FilterBits(GolombCode(p.P), SortedHashes(p, filter.f, elements), 0) + Repeated(false, pad)
    ensures IsBytes(body) && pad < 8
  {
    body := filter.encoded[|WriteCompactSize(filter.n)|..];
    pad := |BytesBits(body)| - |FilterBits(GolombCode(p.P), SortedHashes(p, filter.f, elements), 0)|;
    SizeFirst(filter.n, filter.encoded);
  }

  lemma SizeFirst(n: nat, encoded: seq<nat>)
    requires n < WORD && WriteCompactSize(n) <= encoded
    ensures ReadCompactSize(encoded) == if n <= MAX_SIZE then Some(Sized(n, encoded[|WriteCompactSize(n)|..])) else None
  {
    var size := WriteCompactSize(n);
    assert encoded == size + encoded[|size|..];
    SizeRoundTrip(n, encoded[|size|..]);
  }

  lemma SingleSorted(p: Params, f: nat, q: Element)
    ensures SortedHashes(p, f, [q]) == [HashToRange(p, f, q)]
  {
    var h := HashToRange(p, f, q);
    assert Hashes(p, f, [q]) == [h];
    assert Sort([h]) == [h];
  }

  /** Every element that went in matches, alone and among others. */
  lemma NoFalseNegatives(p: Params, elements: seq<Element>, filter: Filter, queries: seq<Element>, e: Element)
    requires p.M < LIMIT && Built(p, elements, filter) && |elements| <= MAX_SIZE && e in elements && e in queries
    ensures Matches(p, filter.encoded, SortedHashes(p, filter.f, queries)) == Some(true)
    ensures Matches(p, filter.encoded, [HashToRange(p, filter.f, e)]) == Some(true)
  {
    MatchAnyIs(p, elements, filter, queries);
    MatchAnyIs(p, elements, filter, [e]);
    SingleSorted(p, filter.f, e);
    assert e in [e];
  }

  /** MatchAny is the disjunction of single matches. */
  lemma MatchAnyIsSome(p: Params, elements: seq<Element>, filter: Filter, queries: seq<Element>)
    requires p.M < LIMIT && Built(p, elements, filter) && |elements| <= MAX_SIZE
    ensures Matches(p, filter.encoded, SortedHashes(p, filter.f, queries)) ==
      Some(exists q :: q in queries && Matches(p, filter.encoded, [HashToRange(p, filter.f, q)]) == Some(true))
  {
    MatchAnyIs(p, elements, filter, queries);
    forall q | q in queries
      ensures Matches(p, filter.encoded, [HashToRange(p, filter.f, q)]) == Some(SameHash(p, filter.f, elements, [q]))
    {
      MatchAnyIs(p, elements, filter, [q]);
      SingleSorted(p, filter.f, q);
    }
    if SameHash(p, filter.f, elements, queries) {
      var e, q :| e in elements && q in queries && HashToRange(p, filter.f, e) == HashToRange(p, filter.f, q);
      assert q in [q];
    }
  }

  // ---------- Reading a filter back ----------

  /** The bits left after n codes. */
  function SkipCodes(read: Reading, n: nat, bits: seq<bool>): Option<seq<bool>> {
    if n == 0 then Some(bits)
    else match read(bits)
      case None => None
      case Some(found) => SkipCodes(read, n - 1, found.rest)
  }

  /** Exactly n codes and no byte to spare, unless the check is skipped. */
  ghost function DecodedFilter(p: Params, encoded: seq<nat>, skipCheck: bool): Option<Filter> {
    match ReadCompactSize(encoded)
    case None => None
    case Some(sized) =>
      var left := SkipCodes(GolombReading(p.P), sized.size, BytesBits(sized.rest));
      if skipCheck || (left.Some? && |left.value| < 8) then Some(Filter(sized.size, sized.size * p.M, encoded)) else None
  }

  method DecodeFilter(p: Params, encoded: seq<nat>, skipCheck: bool) returns (r: Option<Filter>)
    requires p.P < 64 && IsBytes(encoded)
    ensures r == DecodedFilter(p, encoded, skipCheck)
  {
    var sized := ReadCompactSize(encoded);
    if sized.None? {
      return None;
    }
    var filter := Filter(sized.value.size, sized.value.size * p.M, encoded);
    if skipCheck {
      return Some(filter);
    }
    GolombIs(p.P);
    var ok := CheckCodes(p.P, sized.value.size, sized.value.rest, GolombReading(p.P));
    r := if ok then Some(filter) else None;
  }

  method CheckCodes(P: nat, n: nat, bytes: seq<nat>, ghost read: Reading) returns (ok: bool)
    requires P < 64 && IsBytes(bytes) && IsGolomb(P, read)
    ensures var left := SkipCodes(read, n, BytesBits(bytes)); ok <==> left.Some? && |left.value| < 8
  {
    var reader := new BitStreamReader(bytes);
    ghost var left := SkipCodes(read, n, BytesBits(bytes));
    for i := 0 to n
      invariant fresh(reader) && reader.Valid() && left == SkipCodes(read, n - i, reader.Remaining())
    {
      var delta := DecodeNext(reader, P, read);
      if delta.None? {
        return false;
      }
    }
    ok := reader.input == [];
  }

  lemma {:induction false} SkipAll(code: Code, read: Reading, values: seq<nat>, last: nat, rest: seq<bool>)
    requires Decodable(code, read) && From(last, values) && Words(values)
    ensures SkipCodes(read, |values|, FilterBits(code, values, last) + rest) == Some(rest)
    decreases |values|
  {
    if values != [] {
      var tail := FilterBits(code, values[1..], values[0]);
      assert Inverts(code, read, values[0] - last, tail + rest);
      Regroup(code(values[0] - last), tail, rest);
      SkipAll(code, read, values[1..], values[0], rest);
    } else {
      assert FilterBits(code, values, last) + rest == rest;
    }
  }

  /** A filter that was built is accepted and comes back as it was, if its size can be read. */
  lemma DecodeBuilt(p: Params, elements: seq<Element>, filter: Filter)
    requires p.M < LIMIT && Built(p, elements, filter)
    ensures DecodedFilter(p, filter.encoded, false) == if |elements| <= MAX_SIZE then Some(filter) else None
  {
    var body, pad := BuiltParts(p, elements, filter);
    ProductIsWord(|elements|, p.M);
    HashesAreWords(p, elements, filter.f);
    GolombDecodable(p.P);
    SkipAll(GolombCode(p.P), GolombReading(p.P), SortedHashes(p, filter.f, elements), 0, Repeated(false, pad));
  }
}
