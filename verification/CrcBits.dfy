/**
 CRCs of a number of bits that need not be whole bytes, and what the overloads that append such bits
 to a CRC make of the CRC they are given.
 */
module CrcBits {
  import opened Bits
  import opened CrcSpec
  import opened CrcCode
  import opened CrcTable
  import opened CrcCalculate
  import opened CrcTheorems
  import opened CrcSplit

  /** The unused bits of the last byte are zero, as the library's documentation asks. */
  ghost predicate PaddedTo(p: Parameters, data: seq<Byte>, size: nat)
    requires p.Valid()
  {
    size <= 8 * |data| && (size % 8 != 0 ==> Padded(p, data[size / 8], size % 8))
  }

  /** The first `size` bits of the data. */
  function FirstOf(p: Parameters, data: seq<Byte>, size: nat): (bits: Word)
    requires size <= 8 * |data|
    ensures |bits| == size
  {
    Stream(p.reflectInput, data)[..size]
  }

  /** CalculateBits. */
  method CalculateBits(data: seq<Byte>, size: nat, p: Parameters) returns (crc: Word)
    requires p.Valid() && PaddedTo(p, data, size)
    ensures crc == CrcFrom(p, p.initialValue, FirstOf(p, data, size))
    ensures Finished(p, p.initialValue, FirstOf(p, data, size), crc)
  {
    CrcFinished(p, p.initialValue, FirstOf(p, data, size));
    var remainder := BitsRemainder(data, size, p, p.initialValue);
    TrackedCrc(p, p.initialValue, FirstOf(p, data, size), remainder);
    crc := Finalize(p, remainder, p.reflectInput != p.reflectOutput);
  }

  /** CalculateBits with a lookup table. */
  method CalculateBitsByTable(data: seq<Byte>, size: nat, p: Parameters, table: array<Word>) returns (crc: Word)
    requires p.Valid() && PaddedTo(p, data, size) && IsTable(p, table[..])
    ensures crc == CrcFrom(p, p.initialValue, FirstOf(p, data, size))
    ensures Finished(p, p.initialValue, FirstOf(p, data, size), crc)
  {
    CrcFinished(p, p.initialValue, FirstOf(p, data, size));
    var remainder := BitsRemainderByTable(data, size, p, table, p.initialValue);
    TrackedCrc(p, p.initialValue, FirstOf(p, data, size), remainder);
    crc := Finalize(p, remainder, p.reflectInput != p.reflectOutput);
  }

  /** Whole bytes start from the initial value; r0 is used when there are none. */
  function StartFor(p: Parameters, r0: Word, whole: nat): Word { if whole > 0 then p.initialValue else r0 }

  /** What the appending overloads start from: with a whole byte or more, not the CRC they were given. */
  function StartOf(p: Parameters, crc: Word, size: nat): (r0: Word)
    requires p.Valid() && |crc| == p.n
    ensures |r0| == p.n
  {
    StartFor(p, UndoFinalize(p, crc, Toggle(p)), size / 8)
  }

  /** CalculateBits that appends to a CRC. */
  method CalculateBitsMore(data: seq<Byte>, size: nat, p: Parameters, crc: Word) returns (crc': Word)
    requires p.Valid() && PaddedTo(p, data, size) && |crc| == p.n
    ensures crc' == CrcFrom(p, StartOf(p, crc, size), FirstOf(p, data, size))
    ensures if size >= 8 then Finished(p, p.initialValue, FirstOf(p, data, size), crc') else Continued(p, crc, FirstOf(p, data, size), crc')
  {
    CrcFinished(p, p.initialValue, FirstOf(p, data, size));
    CrcContinued(p, crc, FirstOf(p, data, size));
    var r0 := UndoFinalize(p, crc, p.reflectInput != p.reflectOutput);
    var remainder := BitsRemainder(data, size, p, r0);
    TrackedCrc(p, StartOf(p, crc, size), FirstOf(p, data, size), remainder);
    crc' := Finalize(p, remainder, p.reflectInput != p.reflectOutput);
  }

  /** The same with a lookup table. */
  method CalculateBitsMoreByTable(data: seq<Byte>, size: nat, p: Parameters, table: array<Word>, crc: Word) returns (crc': Word)
    requires p.Valid() && PaddedTo(p, data, size) && IsTable(p, table[..]) && |crc| == p.n
    ensures crc' == CrcFrom(p, StartOf(p, crc, size), FirstOf(p, data, size))
    ensures if size >= 8 then Finished(p, p.initialValue, FirstOf(p, data, size), crc') else Continued(p, crc, FirstOf(p, data, size), crc')
  {
    CrcFinished(p, p.initialValue, FirstOf(p, data, size));
    CrcContinued(p, crc, FirstOf(p, data, size));
    var r0 := UndoFinalize(p, crc, p.reflectInput != p.reflectOutput);
    var remainder := BitsRemainderByTable(data, size, p, table, r0);
    TrackedCrc(p, StartOf(p, crc, size), FirstOf(p, data, size), remainder);
    crc' := Finalize(p, remainder, p.reflectInput != p.reflectOutput);
  }

  method BitsRemainder(data: seq<Byte>, size: nat, p: Parameters, r0: Word) returns (remainder: Word)
    requires p.Valid() && |r0| == p.n && PaddedTo(p, data, size)
    ensures Tracks(p, StartFor(p, r0, size / 8), FirstOf(p, data, size), remainder)
  {
    var whole := size / CHAR_BIT;
    remainder := r0;
    if whole > 0 {
      remainder := CalculateRemainder(data[..whole], p, p.initialValue);
    } else {
      TracksStart(p, remainder);
    }
    remainder := LastBits(data, size, whole, size % CHAR_BIT, p, StartFor(p, r0, whole), remainder);
  }

  method BitsRemainderByTable(data: seq<Byte>, size: nat, p: Parameters, table: array<Word>, r0: Word) returns (remainder: Word)
    requires p.Valid() && |r0| == p.n && PaddedTo(p, data, size) && IsTable(p, table[..])
    ensures Tracks(p, StartFor(p, r0, size / 8), FirstOf(p, data, size), remainder)
  {
    var whole := size / CHAR_BIT;
    remainder := r0;
    if whole > 0 {
      remainder := CalculateRemainderTable(data[..whole], p, table, p.initialValue);
    } else {
      TracksStart(p, remainder);
    }
    remainder := LastBits(data, size, whole, size % CHAR_BIT, p, StartFor(p, r0, whole), remainder);
  }

  /** The bits behind the whole bytes, if any. */
  method LastBits(data: seq<Byte>, ghost size: nat, whole: nat, rest: nat, p: Parameters, ghost start: Word, remainder: Word) returns (r: Word)
    requires p.Valid() && |start| == p.n && size == 8 * whole + rest <= 8 * |data| && rest < 8 && (rest != 0 ==> Padded(p, data[whole], rest))
    requires Tracks(p, start, Stream(p.reflectInput, data[..whole]), remainder)
    ensures Tracks(p, start, FirstOf(p, data, size), r)
  {
    SplitBits(p, data, size, whole, rest);
    r := remainder;
    if rest == 0 {
      assert Stream(p.reflectInput, data[..whole]) + [] == Stream(p.reflectInput, data[..whole]);
    } else {
      r := RestBits(data[whole], rest, p, start, Stream(p.reflectInput, data[..whole]), remainder);
    }
  }

  method RestBits(last: Byte, rest: nat, p: Parameters, ghost start: Word, ghost before: Word, remainder: Word) returns (r: Word)
    requires p.Valid() && |start| == p.n && rest < 8 && Padded(p, last, rest) && Tracks(p, start, before, remainder)
    ensures Tracks(p, start, before + FirstBits(p, last, rest), r)
  {
    r := CalculateRemainderBits(last, rest, p, remainder);
    TracksAppend(p, start, before, remainder, FirstBits(p, last, rest), r);
  }

  /** The first bits of the data are those of the whole bytes and then those of the byte behind them. */
  lemma SplitBits(p: Parameters, data: seq<Byte>, size: nat, whole: nat, rest: nat)
    requires size == 8 * whole + rest <= 8 * |data| && rest < 8
    ensures FirstOf(p, data, size) == Stream(p.reflectInput, data[..whole]) + if rest == 0 then [] else FirstBits(p, data[whole], rest)
  {
    var reflect := p.reflectInput;
    assert data == data[..whole] + data[whole..];
    StreamAppend(reflect, data[..whole], data[whole..]);
    if rest != 0 {
      ByteFirst(reflect, data[whole..], rest);
      TakeMore(Stream(reflect, data[..whole]), Stream(reflect, data[whole..]), rest);
    }
  }

  lemma ByteFirst(reflect: bool, data: seq<Byte>, rest: nat)
    requires data != [] && rest < 8
    ensures Stream(reflect, data)[..rest] == (if reflect then data[0] else Reversed(data[0]))[..rest]
  {
    assert data == [data[0]] + data[1..];
    StreamAppend(reflect, [data[0]], data[1..]);
    StreamOne(reflect, data[0]);
  }

  lemma TakeMore(a: Word, b: Word, k: nat)
    requires k <= |b|
    ensures (a + b)[..|a| + k] == a + b[..k]
  {
  }

  // ----- appending

  /** After k zero bits nothing of d is in the CRC bits. */
  predicate SilentAfter(p: Parameters, d: Word, k: nat)
    requires p.Valid() && |d| == p.n
  {
    RemainderOf(p, d, Zeros(k))[..p.w] == Zeros(p.w)
  }

  lemma ResizeXor(a: Word, b: Word, n: nat)
    requires |a| == |b|
    ensures Xor(Resize(a, n), Resize(b, n)) == Resize(Xor(a, b), n)
  {
  }

  /** Registers fed the same bits differ by what their difference becomes when fed zeros. */
  lemma DifferenceStays(p: Parameters, x: Word, y: Word, bits: Word)
    requires p.Valid() && |x| == |y| == p.n
    ensures Xor(RemainderOf(p, x, bits), RemainderOf(p, y, bits)) == RemainderOf(p, Xor(x, y), Zeros(|bits|))
  {
    if p.reflectInput {
      DifferenceFed(p, x, y, bits);
    } else {
      assert Zeros(|bits|) == Xor(bits, bits);
      assert Xor(x, y)[..p.w] == Xor(x[..p.w], y[..p.w]);
      FeedLinear(p.Poly(), x[..p.w], y[..p.w], bits, bits);
      ResizeXor(Feed(p.Poly(), x[..p.w], bits), Feed(p.Poly(), y[..p.w], bits), p.n);
    }
  }

  /** What appending the bits to the CRC ought to give. */
  function Appended(p: Parameters, crc: Word, bits: Word): Word
    requires p.Valid() && |crc| == p.n
  {
    CrcFrom(p, UndoFinalize(p, crc, Toggle(p)), bits)
  }

  /**
   Appending bits to a CRC gives the CRC continued if and only if there is no whole byte among
   them, or the difference between the CRC's remainder and the initial value dies out within them.
   */
  lemma AppendIff(p: Parameters, data: seq<Byte>, size: nat, crc: Word)
    requires p.Valid() && size <= 8 * |data| && |crc| == p.n
    ensures CrcFrom(p, StartOf(p, crc, size), FirstOf(p, data, size)) == Appended(p, crc, FirstOf(p, data, size)) <==>
            size < 8 || SilentAfter(p, Xor(p.initialValue, UndoFinalize(p, crc, Toggle(p))), size)
  {
    var x, y, bits := p.initialValue, UndoFinalize(p, crc, Toggle(p)), FirstOf(p, data, size);
    SameCrcIff(p, RemainderOf(p, x, bits), RemainderOf(p, y, bits));
    DifferenceStays(p, x, y, bits);
    LowXorZero(RemainderOf(p, x, bits), RemainderOf(p, y, bits), p.w);
  }

  /** With a constant term in the polynomial a step loses nothing. */
  lemma StepKeepsBits(poly: Word, r: Word)
    requires |r| == |poly| > 0 && poly[0] && StepBit(poly, r, false) == Zeros(|r|)
    ensures r == Zeros(|r|)
  {
    var t := StepBit(poly, r, false);
    assert t[0] == r[|r| - 1];
    forall i | 0 <= i < |r| - 1 ensures !r[i] {
      assert !t[i + 1];
    }
  }

  lemma {:induction false} FeedKeepsBits(poly: Word, r: Word, k: nat)
    requires |r| == |poly| > 0 && poly[0] && Feed(poly, r, Zeros(k)) == Zeros(|r|)
    ensures r == Zeros(|r|)
    decreases k
  {
    if k > 0 {
      assert Zeros(k)[1..] == Zeros(k - 1);
      FeedKeepsBits(poly, StepBit(poly, r, false), k - 1);
      StepKeepsBits(poly, r);
    }
  }

  lemma SilentPlain(p: Parameters, d: Word, k: nat)
    requires p.Valid() && !p.reflectInput && p.polynomial[0] && |d| == p.n
    ensures SilentAfter(p, d, k) <==> d[..p.w] == Zeros(p.w)
  {
    var r := Feed(p.Poly(), d[..p.w], Zeros(k));
    assert Resize(r, p.n)[..p.w] == r;
    if r == Zeros(p.w) {
      FeedKeepsBits(p.Poly(), d[..p.w], k);
    }
    if d[..p.w] == Zeros(p.w) {
      ZeroStays(p.Poly(), k);
    }
  }

  /**
   For a polynomial with a constant term and input that is not reflected, appending a whole byte or
   more is right if and only if the CRC is that of no data at all: otherwise what came before is lost.
   */
  lemma PlainAppendIff(p: Parameters, data: seq<Byte>, size: nat, crc: Word)
    requires p.Valid() && !p.reflectInput && p.polynomial[0] && 8 <= size <= 8 * |data| && |crc| == p.n
    ensures CrcFrom(p, StartOf(p, crc, size), FirstOf(p, data, size)) == Appended(p, crc, FirstOf(p, data, size)) <==>
            UndoFinalize(p, crc, Toggle(p))[..p.w] == p.initialValue[..p.w]
  {
    var x, y := p.initialValue, UndoFinalize(p, crc, Toggle(p));
    AppendIff(p, data, size, crc);
    SilentPlain(p, Xor(x, y), size);
    LowXorZero(x, y, p.w);
  }

  /** The eight-bit CRC with polynomial 7, nothing reflected. */
  function Eight(): (p: Parameters)
    ensures p.Valid()
  {
    Parameters(8, 8, [true, true, true, false, false, false, false, false], Zeros(8), Zeros(8), false, false)
  }

  /** Appending a zero byte to the CRC 1 forgets the CRC. */
  lemma AppendForgets()
    ensures var crc := [true] + Zeros(7);
            CrcFrom(Eight(), StartOf(Eight(), crc, 8), FirstOf(Eight(), [Zeros(8)], 8)) != Appended(Eight(), crc, FirstOf(Eight(), [Zeros(8)], 8))
  {
    var p, crc := Eight(), [true] + Zeros(7);
    PlainAppendIff(p, [Zeros(8)], 8, crc);
    assert UndoFinalize(p, crc, false)[..p.w][0];
  }

  /** The bit that enters an empty register leaves the polynomial in it. */
  lemma LastBitOnly(poly: Word, k: nat)
    requires 0 < |poly|
    ensures Feed(poly, Zeros(|poly|), Zeros(k) + [true]) == poly
  {
    FeedAppend(poly, Zeros(|poly|), Zeros(k), [true]);
    ZeroStays(poly, k);
    OneBitIn(poly);
  }

  lemma OneBitIn(poly: Word)
    requires 0 < |poly|
    ensures Feed(poly, Zeros(|poly|), [true]) == poly
  {
    var t := StepBit(poly, Zeros(|poly|), true);
    assert t == poly;
    assert Feed(poly, Zeros(|poly|), [true]) == Feed(poly, t, [true][1..]);
  }

  lemma OneLast(b: Byte)
    requires b == [true] + Zeros(7)
    ensures Stream(false, [b]) == Zeros(7) + [true]
  {
    StreamOne(false, b);
  }

  /** The eight-bit CRC of the byte one is the polynomial, seven. */
  lemma EightOfOne()
    ensures Crc(Eight(), [[true] + Zeros(7)]) == Eight().polynomial
  {
    var p, one := Eight(), [true] + Zeros(7);
    OneLast(one);
    LastBitOnly(p.Poly(), 7);
    EightReads(p, Stream(false, [one]), Crc(p, [one]));
  }

  lemma EightReads(p: Parameters, bits: Word, crc: Word)
    requires p == Eight() && Feed(p.Poly(), Zeros(8), bits) == p.Poly() && crc == CrcFrom(p, p.initialValue, bits)
    ensures crc == p.polynomial
  {
    CrcFinished(p, p.initialValue, bits);
    assert p.initialValue[..8] == Zeros(8) && p.polynomial[..8] == p.polynomial;
    assert Tracks(p, p.initialValue, bits, p.polynomial);
    assert Reads(p, p.polynomial, crc);
  }
}
