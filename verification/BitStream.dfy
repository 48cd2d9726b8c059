/** Reading and writing single bits over a stream of bytes (src/streams.h). */
module BitStream {
  import opened Wrappers
  import opened ArithShift
  import opened Bits

  function Min(a: nat, b: nat): nat { if a <= b then a else b }

  predicate IsBytes(s: seq<nat>) { forall i :: 0 <= i < |s| ==> s[i] < 256 }

  // ---------- One chunk out ----------

  /** A number cut down to 64 bits. */
  function Word(x: nat): nat { x % WORD }

  /** The next bits of the n still to be written, below the o bits that are held. */
  function Chunk(data: nat, n: nat, o: nat): nat
    requires n <= 64
  {
    Down(Word(Up(data, 64 - n)), 56 + o)
  }

  lemma WordBits(x: nat, w: nat)
    requires 63 < w < 65
    ensures Word(x) < Pow2(w) && BitsOf(Word(x), w) == BitsOf(x, w)
  {
    Pow2Word(w);
    LowBits(x, w, x / WORD, x % WORD);
  }

  lemma ByteBits(x: nat, e: nat)
    requires 7 < e < 9
    ensures x % 256 < Pow2(e) && BitsOf(x % 256, e) == BitsOf(x, e)
  {
    Pow2Byte(e);
    LowBits(x, e, x / 256, x % 256);
  }

  lemma PaddedNumber(x: nat, n: nat, s: seq<bool>, k: nat)
    requires BitsOf(x, n) == s + Repeated(false, k) && x < Pow2(n)
    ensures x == NumberOf(s) * Pow2(k)
  {
    SmallNumber(x, n);
    NumberConcat(s, Repeated(false, k));
    ZeroBits(k);
  }

  lemma ChunkBits(data: nat, n: nat, o: nat, c: nat)
    requires 0 < n <= 64 && o < 8 && c == Min(8 - o, n)
    ensures Chunk(data, n, o) < Pow2(8 - o) && BitsOf(Chunk(data, n, o), 8 - o) == (BitsOf(data, n) + Repeated(false, 64 - n))[..8 - o]
  {
    var w: nat :| 63 < w < 65;
    var y := Word(Up(data, w - n));
    UpBits(data, w - n, w);
    WordBits(Up(data, w - n), w);
    DownBits(y, 56 + o, w);
    DownSmall(y, 56 + o, w);
  }

  /** The shifts pick the first c of the n bits still to be written and put them behind the o bits held. */
  lemma ChunkIs(data: nat, n: nat, o: nat, c: nat)
    requires 0 < n <= 64 && o < 8 && c == Min(8 - o, n)
    ensures Chunk(data, n, o) == NumberOf(BitsOf(data, n)[..c]) * Pow2(8 - o - c)
  {
    ChunkBits(data, n, o, c);
    var more := BitsOf(data, n)[..c];
    assert (BitsOf(data, n) + Repeated(false, 64 - n))[..8 - o] == more + Repeated(false, 8 - o - c);
    PaddedNumber(Chunk(data, n, o), 8 - o, more, 8 - o - c);
  }

  /** The buffer has the bits held at its top and zeros below. */
  ghost predicate Buffered(buffer: nat, held: seq<bool>) {
    |held| <= 8 && buffer == NumberOf(held) * Pow2(8 - |held|)
  }

  lemma HoldMore(buffer: nat, held: seq<bool>, more: seq<bool>, added: nat)
    requires Buffered(buffer, held) && |held| + |more| <= 8 && added == NumberOf(more) * Pow2(8 - |held| - |more|)
    ensures Buffered(BitOr(buffer, added), held + more)
  {
    var s := 8 - |held|;
    NumberConcat(held, more);
    NumberBound(more);
    Pow2Sum(|more|, s - |more|);
    Scale(NumberOf(more), Pow2(|more|), Pow2(s - |more|));
    Swap(added, buffer, s, NumberOf(held));
    Distribute(NumberOf(held), Pow2(|more|), NumberOf(more), Pow2(s - |more|), Pow2(s));
  }

  lemma Distribute(h: nat, p: nat, w: nat, q: nat, s: nat)
    requires s == p * q
    ensures (h * p + w) * q == h * s + w * q
  {
  }

  lemma Assoc<T>(a: seq<T>, b: seq<T>, c: seq<T>, d: seq<T>)
    ensures (a + (b + c)) + d == (a + b) + (c + d)
  {
  }

  lemma Scale(x: nat, p: nat, q: nat)
    requires x < p && q > 0
    ensures x * q < p * q
  {
  }

  lemma {:induction false} OrSwap(a: nat, b: nat)
    ensures BitOr(a, b) == BitOr(b, a)
    decreases a
  {
    if a > 0 && b > 0 {
      OrSwap(a / 2, b / 2);
    }
  }

  lemma Swap(low: nat, high: nat, s: nat, k: nat)
    requires low < Pow2(s) && high == k * Pow2(s)
    ensures BitOr(high, low) == high + low
  {
    OrSwap(high, low);
    assert k * Pow2(s) == Pow2(s) * k;
    DisjointOr(low, high, s, k);
  }

  lemma ChunkStep(buffer: nat, held: seq<bool>, data: nat, n: nat, c: nat) returns (more: seq<bool>)
    requires Buffered(buffer, held) && |held| < 8 && 0 < n <= 64 && c == Min(8 - |held|, n)
    ensures |more| == c && BitsOf(data, n) == more + BitsOf(data, n - c)
    ensures Buffered(BitOr(buffer, Chunk(data, n, |held|)), held + more)
  {
    more := BitsOf(data, n)[..c];
    ChunkIs(data, n, |held|, c);
    HoldMore(buffer, held, more, Chunk(data, n, |held|));
    BitsSuffix(data, n, n - c);
  }

  lemma FullByte(buffer: nat, held: seq<bool>)
    requires Buffered(buffer, held)
    ensures Octet(buffer) == held + Repeated(false, 8 - |held|)
  {
    var e: nat :| 7 < e < 9;
    var zeros := Repeated(false, e - |held|);
    NumberConcat(held, zeros);
    ZeroBits(e - |held|);
    BitsOfNumber(held + zeros);
    OctetIs(buffer, e);
  }

  lemma BufferIsByte(buffer: nat, held: seq<bool>)
    requires Buffered(buffer, held)
    ensures buffer < 256
  {
    var e: nat :| 7 < e < 9;
    Pow2Byte(e);
    NumberBound(held);
    Scale(NumberOf(held), Pow2(|held|), Pow2(e - |held|));
    Pow2Sum(|held|, e - |held|);
  }

  /** Bytes already out, then the bits held, are all the bits written. */
  ghost predicate Coherent(out: seq<nat>, buffer: nat, held: seq<bool>, bits: seq<bool>, free: int) {
    free == 8 - |held| ==> IsBytes(out) && Buffered(buffer, held) && bits == BytesBits(out) + held
  }

  ghost predicate Written(out: seq<nat>, buffer: nat, held: seq<bool>, bits: seq<bool>) {
    forall free {:trigger Coherent(out, buffer, held, bits, free)} :: Coherent(out, buffer, held, bits, free)
  }

  lemma WrittenIs(out: seq<nat>, buffer: nat, held: seq<bool>, bits: seq<bool>)
    requires IsBytes(out) && Buffered(buffer, held) && bits == BytesBits(out) + held
    ensures Written(out, buffer, held, bits)
  {
  }

  class BitStreamWriter {
    /** The bytes already handed to the stream. */
    var out: seq<nat>
    var buffer: nat
    var offset: nat
    ghost var held: seq<bool>
    ghost var bits: seq<bool>

    constructor ()
      ensures Valid() && Bits() == []
    {
      out, buffer, offset, held, bits := [], 0, 0, [], [];
      WrittenIs([], 0, [], []);
    }

    ghost predicate Valid()
      reads this
    {
      offset == |held| < 8 && Written(out, buffer, held, bits)
    }

    ghost function Bits(): seq<bool>
      reads this
    {
      bits
    }

    /** The n low bits of data follow what was written. */
    method Write(data: nat, nbits: int) returns (ok: bool)
      requires Valid()
      modifies this
      ensures Valid() && (ok <==> 0 <= nbits <= 64)
      ensures Bits() == if ok then old(Bits()) + BitsOf(data, nbits) else old(Bits())
    {
      if nbits < 0 || nbits > 64 {
        return false;
      }
      var n: nat := nbits;
      while n > 0
        invariant Valid() && n <= nbits
        invariant Bits() + BitsOf(data, n) == old(Bits()) + BitsOf(data, nbits)
      {
        n := WriteChunk(data, n);
      }
      ok := true;
    }

    method WriteChunk(data: nat, n: nat) returns (left: nat)
      requires Valid() && 0 < n <= 64
      modifies this
      ensures Valid() && left < n && Bits() + BitsOf(data, left) == old(Bits()) + BitsOf(data, n)
    {
      assert Coherent(out, buffer, held, bits, 8 - offset);
      var count := Min(8 - offset, n);
      left := n - count;
      ghost var more := ChunkStep(buffer, held, data, n, count);
      Assoc(BytesBits(out), held, more, BitsOf(data, left));
      buffer := BitOr(buffer, Chunk(data, n, offset));
      held := held + more;
      offset := offset + count;
      bits := BytesBits(out) + held;
      WrittenIs(out, buffer, held, bits);
      if offset == 8 {
        Emit();
        assert Repeated(false, 0) == [];
      }
    }

    /** The buffered byte goes out; unused bits go out as zeros. */
    method Emit()
      requires offset == |held| <= 8 && Written(out, buffer, held, bits)
      modifies this
      ensures Valid() && held == [] && Bits() == old(Bits()) + Repeated(false, 8 - old(offset))
    {
      assert Coherent(out, buffer, held, bits, 8 - offset);
      FullByte(buffer, held);
      BufferIsByte(buffer, held);
      assert (out + [buffer])[..|out|] == out;
      bits := bits + Repeated(false, 8 - offset);
      out, buffer, offset, held := out + [buffer], 0, 0, [];
      WrittenIs(out, buffer, held, bits);
    }

    method Flush()
      requires Valid()
      modifies this
      ensures Valid() && Bits() == old(Bits()) + Repeated(false, (8 - old(offset)) % 8)
      ensures IsBytes(out) && BytesBits(out) == Bits()
    {
      if offset != 0 {
        Emit();
      }
      assert Coherent(out, buffer, held, bits, 8 - offset);
    }
  }

  // ---------- One chunk in ----------

  /** The c bits of the byte that follow the first o. */
  function Taken(buffer: nat, o: nat, c: nat): nat
    requires c <= 8
  {
    Down(Up(buffer, o) % 256, 8 - c)
  }

  lemma TakenIs(buffer: nat, o: nat, c: nat)
    requires buffer < 256 && o + c <= 8
    ensures Taken(buffer, o, c) == NumberOf(Octet(buffer)[o..o + c])
  {
    var e: nat :| 7 < e < 9;
    var y := Up(buffer, o) % 256;
    UpBits(buffer, o, e);
    BitsSuffix(buffer, e, e - o);
    ByteBits(Up(buffer, o), e);
    DownBits(y, e - c, e);
    DownSmall(y, e - c, e);
    assert (BitsOf(buffer, e)[o..] + Repeated(false, o))[..c] == BitsOf(buffer, e)[o..o + c];
    OctetIs(buffer, e);
    SmallNumber(Taken(buffer, o, c), c);
  }

  lemma SplitAt<T>(done: seq<T>, byte: seq<T>, i: nat, j: nat, rest: seq<T>)
    requires i <= j <= |byte|
    ensures (done + byte[i..j]) + (byte[j..] + rest) == done + (byte[i..] + rest)
  {
    assert byte[i..] == byte[i..j] + byte[j..];
  }

  lemma TakeStep(buffer: nat, o: nat, c: nat, done: seq<bool>, data: nat)
    requires buffer < 256 && o + c <= 8 && |done| + c <= 64 && data == NumberOf(done)
    ensures BitOr(Word(Up(data, c)), Taken(buffer, o, c)) == NumberOf(done + Octet(buffer)[o..o + c])
  {
    TakenIs(buffer, o, c);
    JoinData(done, Octet(buffer)[o..o + c], data, Taken(buffer, o, c));
  }

  class BitStreamReader {
    /** The bytes not yet read from the stream. */
    var input: seq<nat>
    var buffer: nat
    var offset: nat

    constructor (bytes: seq<nat>)
      requires IsBytes(bytes)
      ensures Valid() && Remaining() == BytesBits(bytes) && offset == 8
    {
      input, buffer, offset := bytes, 0, 8;
    }

    ghost predicate Inner()
      reads this
    {
      offset <= 8 && buffer < 256 && IsBytes(input)
    }

    /** Between calls no byte is fetched before its first bit is needed. */
    ghost predicate Valid()
      reads this
    {
      offset >= 1 && Inner()
    }

    ghost function Remaining(): seq<bool>
      requires Inner()
      reads this
    {
      Octet(buffer)[offset..] + BytesBits(input)
    }

    /** The next bits as a number, or failure when there are too few. */
    method Read(nbits: int) returns (r: Option<nat>)
      requires Valid()
      modifies this
      ensures Valid() && (r.Some? <==> 0 <= nbits <= 64 && nbits <= |old(Remaining())|)
      ensures r.Some? ==> r.value == NumberOf(old(Remaining())[..nbits]) && Remaining() == old(Remaining())[nbits..]
    {
      if nbits < 0 || nbits > 64 {
        return None;
      }
      ghost var start, done := Remaining(), [];
      var data, n := 0, nbits;
      while n > 0
        invariant Valid() && 0 <= n && |done| + n == nbits
        invariant start == done + Remaining() && data == NumberOf(done)
      {
        if offset == 8 {
          if input == [] {
            return None;
          }
          NextByte();
        }
        data, n, done := ReadChunk(data, n, done);
      }
      assert start[..nbits] == done;
      r := Some(data);
    }

    method ReadChunk(data: nat, n: nat, ghost done: seq<bool>) returns (more: nat, left: nat, ghost read: seq<bool>)
      requires Inner() && offset < 8 && n > 0 && |done| + n <= 64 && data == NumberOf(done)
      modifies this
      ensures Valid() && left < n && |read| + left == |done| + n
      ensures read + Remaining() == done + old(Remaining()) && more == NumberOf(read)
    {
      var bits := Min(8 - offset, n);
      ghost var taken := Octet(buffer)[offset..offset + bits];
      read := done + taken;
      TakeStep(buffer, offset, bits, done, data);
      more := BitOr(Word(Up(data, bits)), Taken(buffer, offset, bits));
      left := n - bits;
      SplitAt(done, Octet(buffer), offset, offset + bits, BytesBits(input));
      offset := offset + bits;
    }

    method NextByte()
      requires Valid() && offset == 8 && input != []
      modifies this
      ensures Inner() && offset == 0 && Remaining() == old(Remaining())
    {
      BytesCons(input);
      buffer, offset, input := input[0], 0, input[1..];
    }
  }

  /** Shifting the new bits in loses none of the old ones. */
  lemma JoinData(done: seq<bool>, more: seq<bool>, data: nat, taken: nat)
    requires |done| + |more| <= 64 && data == NumberOf(done) && taken == NumberOf(more)
    ensures BitOr(Word(Up(data, |more|)), taken) == NumberOf(done + more)
  {
    NoLoss(done, |more|);
    JoinNumber(done, more);
    WordSmall(Up(data, |more|));
  }

  lemma WordSmall(x: nat)
    requires x < WORD
    ensures Word(x) == x
  {
  }

  lemma JoinNumber(done: seq<bool>, more: seq<bool>)
    ensures BitOr(Up(NumberOf(done), |more|), NumberOf(more)) == NumberOf(done + more)
  {
    NumberConcat(done, more);
    NumberBound(more);
    UpIs(NumberOf(done), |more|);
    Swap(NumberOf(more), NumberOf(done) * Pow2(|more|), |more|, NumberOf(done));
  }

  lemma NoLoss(done: seq<bool>, m: nat)
    requires |done| + m <= 64
    ensures Up(NumberOf(done), m) < WORD
  {
    UpIs(NumberOf(done), m);
    NumberBound(done);
    Scale(NumberOf(done), Pow2(|done|), Pow2(m));
    Pow2Sum(|done|, m);
    var w: nat :| 63 < w < 65;
    Pow2Word(w);
    Pow2Mono(|done| + m, w);
  }
}
