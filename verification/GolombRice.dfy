/** Golomb-Rice codes (src/util/golombrice.h). */
module GolombRice {
  import opened Wrappers
  import opened ArithShift
  import opened Bits
  import opened BitStream
  import Limbs

  /** The quotient by 2^P in unary, a zero, and the P low bits. */
  function Golomb(P: nat, x: nat): seq<bool> { Repeated(true, Down(x, P)) + [false] + BitsOf(x, P) }

  method GolombRiceEncode(writer: BitStreamWriter, P: nat, x: nat)
    requires writer.Valid() && P < 64
    modifies writer
    ensures writer.Valid() && writer.Bits() == old(writer.Bits()) + Golomb(P, x)
  {
    var q := Down(x, P);
    while q > 0
      invariant writer.Valid() && writer.Bits() + Repeated(true, q) == old(writer.Bits()) + Repeated(true, Down(x, P))
    {
      var nbits := if q <= 64 then q else 64;
      AllOnes(nbits);
      assert Repeated(true, q) == Repeated(true, nbits) + Repeated(true, q - nbits);
      var _ := writer.Write(WORD - 1, nbits);
      q := q - nbits;
    }
    assert writer.Bits() == writer.Bits() + Repeated(true, q);
    ZeroBit();
    var _ := writer.Write(0, 1);
    var _ := writer.Write(x, P);
    Parts(old(writer.Bits()), Repeated(true, Down(x, P)), [false], BitsOf(x, P));
  }

  lemma Parts<T>(a: seq<T>, b: seq<T>, c: seq<T>, d: seq<T>)
    ensures a + b + [] == a + b && a + b + c + d == a + (b + c + d)
  {
  }

  lemma ZeroBit()
    ensures BitsOf(0, 1) == [false]
  {
  }

  function LeadingOnes(s: seq<bool>): (n: nat)
    ensures n <= |s| && (forall i :: 0 <= i < n ==> s[i]) && (n < |s| ==> !s[n])
  {
    if s != [] && s[0] then 1 + LeadingOnes(s[1..]) else 0
  }

  datatype Found = Found(value: nat, rest: seq<bool>)

  function Joined(P: nat, q: nat, r: nat): nat { Word(Word(Up(q, P)) + r) }

  /** The number that a string of bits begins with, and the bits after it. */
  function GolombRead(P: nat, s: seq<bool>): Option<Found> {
    var q := LeadingOnes(s);
    if q + 1 + P > |s| then None
    else Some(Found(Joined(P, q, NumberOf(s[q + 1..q + 1 + P])), s[q + 1 + P..]))
  }

  lemma OneBit(s: seq<bool>)
    requires |s| >= 1
    ensures NumberOf(s[..1]) == if s[0] then 1 else 0
  {
    assert s[..1][..0] == [];
  }

  method ReadUnary(reader: BitStreamReader) returns (q: Option<nat>)
    requires reader.Valid()
    modifies reader
    ensures reader.Valid()
    ensures var n := LeadingOnes(old(reader.Remaining()));
      if n == |old(reader.Remaining())| then q == None else q == Some(n) && reader.Remaining() == old(reader.Remaining())[n + 1..]
  {
    ghost var start := reader.Remaining();
    var n := 0;
    while true
      invariant reader.Valid() && n <= |start| && reader.Remaining() == start[n..]
      invariant LeadingOnes(start) == n + LeadingOnes(start[n..])
      decreases |start| - n
    {
      var bit := reader.Read(1);
      if bit.None? {
        return None;
      }
      OneBit(start[n..]);
      assert start[n..][1..] == start[n + 1..];
      if bit.value != 1 {
        return Some(n);
      }
      n := n + 1;
    }
  }

  method GolombRiceDecode(reader: BitStreamReader, P: nat) returns (x: Option<nat>)
    requires reader.Valid() && P < 64
    modifies reader
    ensures reader.Valid()
    ensures match GolombRead(P, old(reader.Remaining()))
      case None => x == None
      case Some(found) => x == Some(found.value) && reader.Remaining() == found.rest
  {
    ghost var start := reader.Remaining();
    var q := ReadUnary(reader);
    if q.None? {
      return None;
    }
    ReadRest(P, start, q.value);
    var r := reader.Read(P);
    if r.None? {
      return None;
    }
    x := Some(Joined(P, q.value, r.value));
  }

  lemma ReadRest(P: nat, s: seq<bool>, q: nat)
    requires q == LeadingOnes(s) < |s|
    ensures var t := s[q + 1..];
      GolombRead(P, s) == if P > |t| then None else Some(Found(Joined(P, q, NumberOf(t[..P])), t[P..]))
  {
    var t := s[q + 1..];
    if P <= |t| {
      assert t[..P] == s[q + 1..q + 1 + P] && t[P..] == s[q + 1 + P..];
    }
  }

  lemma {:induction false} OnesLead(n: nat, rest: seq<bool>)
    requires rest != [] && !rest[0]
    ensures LeadingOnes(Repeated(true, n) + rest) == n
  {
    var s := Repeated(true, n) + rest;
    if n > 0 {
      OnesLead(n - 1, rest);
      assert s[1..] == Repeated(true, n - 1) + rest;
    }
  }

  /** A code is read back whatever follows it. */
  lemma GolombRoundTrip(P: nat, x: nat, rest: seq<bool>)
    requires x < WORD
    ensures GolombRead(P, Golomb(P, x) + rest) == Some(Found(x, rest))
  {
    var q := Down(x, P);
    var s := Golomb(P, x) + rest;
    assert s == Repeated(true, q) + ([false] + BitsOf(x, P) + rest);
    OnesLead(q, [false] + BitsOf(x, P) + rest);
    assert s[q + 1..q + 1 + P] == BitsOf(x, P) && s[q + 1 + P..] == rest;
    JoinedBack(P, x);
  }

  lemma JoinedBack(P: nat, x: nat)
    requires x < WORD
    ensures Joined(P, Down(x, P), NumberOf(BitsOf(x, P))) == x
  {
    var r := DownIs(x, P);
    LowNumber(x, P, r);
    JoinParts(Up(Down(x, P), P), r, x);
  }

  lemma LowNumber(x: nat, P: nat, r: nat)
    requires x == Up(Down(x, P), P) + r && r < Pow2(P)
    ensures NumberOf(BitsOf(x, P)) == r
  {
    UpIs(Down(x, P), P);
    assert Down(x, P) * Pow2(P) == Pow2(P) * Down(x, P);
    NumberOfBits(x, P, Down(x, P), r);
  }

  /** As many ones as 2^P goes into the number, a zero, and the remainder in P bits. */
  lemma GolombShape(P: nat, x: nat)
    ensures var q, s := x / Pow2(P), Golomb(P, x);
      |s| == q + 1 + P && (forall i :: 0 <= i < q ==> s[i]) && !s[q] && NumberOf(s[q + 1..]) == x % Pow2(P)
  {
    var r := DownIs(x, P);
    LowNumber(x, P, r);
    UpIs(Down(x, P), P);
    assert Down(x, P) * Pow2(P) == Pow2(P) * Down(x, P);
    Limbs.ModUnique(x, Pow2(P), Down(x, P), r);
    assert Golomb(P, x)[Down(x, P) + 1..] == BitsOf(x, P);
  }

  lemma JoinParts(u: nat, r: nat, x: nat)
    requires u + r == x < WORD
    ensures Word(Word(u) + r) == x
  {
  }

  // ---------- Codes in general ----------

  type Code = nat -> seq<bool>

  type Reading = seq<bool> -> Option<Found>

  function GolombCode(P: nat): Code { (x: nat) => Golomb(P, x) }

  function GolombReading(P: nat): Reading { s => GolombRead(P, s) }

  ghost predicate Inverts(code: Code, read: Reading, x: nat, rest: seq<bool>) {
    x < WORD ==> read(code(x) + rest) == Some(Found(x, rest))
  }

  /** Every code word is read back, whatever follows. */
  ghost predicate Decodable(code: Code, read: Reading) {
    forall x: nat, rest {:trigger Inverts(code, read, x, rest)} :: Inverts(code, read, x, rest)
  }

  lemma GolombDecodable(P: nat)
    ensures Decodable(GolombCode(P), GolombReading(P))
  {
    forall x: nat, rest ensures Inverts(GolombCode(P), GolombReading(P), x, rest) {
      if x < WORD {
        GolombRoundTrip(P, x, rest);
      }
    }
  }

  ghost predicate ReadsAs(P: nat, read: Reading, s: seq<bool>) { read(s) == GolombRead(P, s) }

  ghost predicate IsGolomb(P: nat, read: Reading) { forall s {:trigger ReadsAs(P, read, s)} :: ReadsAs(P, read, s) }

  lemma GolombIs(P: nat)
    ensures IsGolomb(P, GolombReading(P))
  {
    forall s ensures ReadsAs(P, GolombReading(P), s) {}
  }

  ghost predicate WritesAs(P: nat, code: Code, x: nat) { code(x) == Golomb(P, x) }

  ghost predicate IsGolombCode(P: nat, code: Code) { forall x: nat {:trigger WritesAs(P, code, x)} :: WritesAs(P, code, x) }

  lemma GolombCodeIs(P: nat)
    ensures IsGolombCode(P, GolombCode(P))
  {
    forall x: nat ensures WritesAs(P, GolombCode(P), x) {}
  }

  method EncodeNext(writer: BitStreamWriter, P: nat, x: nat, ghost code: Code)
    requires writer.Valid() && P < 64 && IsGolombCode(P, code)
    modifies writer
    ensures writer.Valid() && writer.Bits() == old(writer.Bits()) + code(x)
  {
    assert WritesAs(P, code, x);
    GolombRiceEncode(writer, P, x);
  }

  method DecodeNext(reader: BitStreamReader, P: nat, ghost read: Reading) returns (x: Option<nat>)
    requires reader.Valid() && P < 64 && IsGolomb(P, read)
    modifies reader
    ensures reader.Valid()
    ensures match read(old(reader.Remaining()))
      case None => x == None
      case Some(found) => x == Some(found.value) && reader.Remaining() == found.rest
  {
    assert ReadsAs(P, read, reader.Remaining());
    x := GolombRiceDecode(reader, P);
  }
}
