/**
 The CRC calculator as written: bit-by-bit and table-driven loops over machine words that
 may be wider than the CRC, in a reflected, a wide and a sub-byte form.
 */
module CrcCode {
  import opened Bits
  import opened CrcSpec

  const CHAR_BIT: nat := 8

  type Byte = b: Word | |b| == 8 witness [false, false, false, false, false, false, false, false]

  /** `n` is the number of bits of CRCType and `w` is CRCWidth. */
  datatype Parameters = Parameters(n: nat, w: nat, polynomial: Word, initialValue: Word, finalXOR: Word,
                                   reflectInput: bool, reflectOutput: bool) {
    predicate Valid() {
      CHAR_BIT <= n && 1 <= w <= n && |polynomial| == |initialValue| == |finalXOR| == n
    }

    /** The polynomial at its own width. */
    function Poly(): (p: Word)
      requires Valid()
      ensures |p| == w
    {
      polynomial[..w]
    }

    /** The polynomial at the top of a CRCType. */
    function WidePoly(): (p: Word)
      requires Valid()
      ensures |p| == n
    {
      Zeros(n - w) + polynomial[..w]
    }
  }

  /** The message bits in the order the register takes them. */
  function Stream(reflect: bool, data: seq<Byte>): (bits: Word)
    ensures |bits| == 8 * |data|
  {
    if |data| == 0 then []
    else Stream(reflect, data[..|data| - 1]) + (if reflect then data[|data| - 1] else Reversed(data[|data| - 1]))
  }

  /**
   What a remainder has to be after `bits`, starting from r0: for reflected input all of it is
   determined, otherwise its low w bits are, and what lies above is left over.
   */
  ghost predicate Tracks(p: Parameters, r0: Word, bits: Word, r: Word)
    requires p.Valid() && |r0| == p.n
  {
    && |r| == p.n
    && if p.reflectInput then r == Reversed(Feed(p.WidePoly(), Reversed(r0), bits))
       else r[..p.w] == Feed(p.Poly(), r0[..p.w], bits)
  }

  lemma TracksStart(p: Parameters, r0: Word)
    requires p.Valid() && |r0| == p.n
    ensures Tracks(p, r0, [], r0)
  {
    ReversedTwice(r0);
  }

  lemma TracksAppend(p: Parameters, r0: Word, a: Word, r1: Word, b: Word, r2: Word)
    requires p.Valid() && |r0| == p.n && Tracks(p, r0, a, r1) && Tracks(p, r1, b, r2)
    ensures Tracks(p, r0, a + b, r2)
  {
    if p.reflectInput {
      FeedAppend(p.WidePoly(), Reversed(r0), a, b);
      ReversedTwice(Feed(p.WidePoly(), Reversed(r0), a));
    } else {
      FeedAppend(p.Poly(), r0[..p.w], a, b);
    }
  }

  // ----- Reflect

  /** The low k bits in reverse order. */
  function ReflectLow(a: Word, k: nat): (r: Word)
    requires k <= |a|
    ensures |r| == |a| && forall i :: 0 <= i < |r| ==> r[i] == (i < k && a[k - 1 - i])
  {
    Resize(Reversed(a[..k]), |a|)
  }

  method Reflect(value: Word, numBits: nat) returns (reversedValue: Word)
    requires numBits <= |value|
    ensures reversedValue == ReflectLow(value, numBits)
  {
    reversedValue := Zeros(|value|);
    var v := value;
    for i := 0 to numBits
      invariant v == Shr(value, i) && reversedValue == ReflectLow(value, i)
    {
      ReflectStep(value, i);
      reversedValue := Shl(reversedValue, 1)[0 := v[0]];
      v := Shr(v, 1);
    }
  }

  lemma ReflectStep(value: Word, i: nat)
    requires i < |value|
    ensures Shl(ReflectLow(value, i), 1)[0 := Shr(value, i)[0]] == ReflectLow(value, i + 1)
    ensures Shr(Shr(value, i), 1) == Shr(value, i + 1)
  {
  }

  /** Reflecting twice keeps the low w bits and drops the rest. */
  lemma ReflectTwice(a: Word, k: nat)
    requires k <= |a|
    ensures ReflectLow(ReflectLow(a, k), k) == KeepLow(a, k)
  {
  }

  // ----- the bit loops

  /** `numBits` shifts to the left; the register proper is the low `top + 1` bits. */
  method ShiftLeft(remainder: Word, polynomial: Word, top: nat, numBits: nat) returns (r: Word)
    requires |remainder| == |polynomial| && top < |remainder|
    ensures |r| == |remainder|
    ensures r[..top + 1] == Feed(polynomial[..top + 1], remainder[..top + 1], Zeros(numBits))
  {
    r := remainder;
    for i := 0 to numBits
      invariant |r| == |remainder|
      invariant r[..top + 1] == Feed(polynomial[..top + 1], remainder[..top + 1], Zeros(i))
    {
      FeedZero(polynomial[..top + 1], remainder[..top + 1], i);
      LeftStep(r, polynomial, top);
      r := if r[top] then Xor(Shl(r, 1), polynomial) else Shl(r, 1);
    }
  }

  lemma FeedZero(poly: Word, r: Word, i: nat)
    requires |r| == |poly| > 0
    ensures Feed(poly, r, Zeros(i + 1)) == StepBit(poly, Feed(poly, r, Zeros(i)), false)
  {
    assert Zeros(i + 1) == Zeros(i) + [false];
    FeedAppend(poly, r, Zeros(i), [false]);
    var s := Feed(poly, r, Zeros(i));
    assert Feed(poly, s, [false]) == Feed(poly, StepBit(poly, s, false), []);
  }

  lemma LeftStep(r: Word, polynomial: Word, top: nat)
    requires |r| == |polynomial| && top < |r|
    ensures (if r[top] then Xor(Shl(r, 1), polynomial) else Shl(r, 1))[..top + 1] ==
            StepBit(polynomial[..top + 1], r[..top + 1], false)
  {
  }

  /** `numBits` shifts to the right. */
  method ShiftRight(remainder: Word, polynomial: Word, numBits: nat) returns (r: Word)
    requires |remainder| == |polynomial| > 0
    ensures |r| == |remainder|
    ensures Reversed(r) == Feed(Reversed(polynomial), Reversed(remainder), Zeros(numBits))
  {
    r := remainder;
    for i := 0 to numBits
      invariant |r| == |remainder|
      invariant Reversed(r) == Feed(Reversed(polynomial), Reversed(remainder), Zeros(i))
    {
      FeedZero(Reversed(polynomial), Reversed(remainder), i);
      RightStep(r, polynomial);
      r := if r[0] then Xor(Shr(r, 1), polynomial) else Shr(r, 1);
    }
  }

  /** Mirrored, a shift to the right is a shift to the left. */
  lemma RightStep(r: Word, polynomial: Word)
    requires |r| == |polynomial| > 0
    ensures Reversed(if r[0] then Xor(Shr(r, 1), polynomial) else Shr(r, 1)) ==
            StepBit(Reversed(polynomial), Reversed(r), false)
  {
    StepIsShift(Reversed(polynomial), Reversed(r), false);
    assert Reversed(Shr(r, 1)) == Shl(Reversed(r), 1);
    assert Reversed(Xor(Shr(r, 1), polynomial)) == Xor(Shl(Reversed(r), 1), Reversed(polynomial));
  }

  // ----- xoring a byte in

  lemma ByteInReflected(r: Word, byte: Byte, k: nat)
    requires 8 <= |r| && k <= 8 && Fits(byte, k)
    ensures Reversed(Xor(r, Resize(byte, |r|))) == Xor(Reversed(r), AtTop(|r|, byte[..k]))
  {
  }

  lemma ByteInWide(r: Word, byte: Byte, w: nat, k: nat)
    requires 8 <= w <= |r| && k <= 8 && Fits(Reversed(byte), k)
    ensures Xor(r, Shl(Resize(byte, |r|), w - 8))[..w] == Xor(r[..w], AtTop(w, Reversed(byte)[..k]))
  {
    var t := AtTop(w, Reversed(byte)[..k]);
    var x := Shl(Resize(byte, |r|), w - 8);
    forall i | 0 <= i < w
      ensures x[i] == t[i]
    {
      if i >= w - 8 {
        assert Reversed(byte)[w - 1 - i] == byte[i - (w - 8)];
      }
    }
  }

  lemma ByteInSmall(r: Word, byte: Byte, k: nat)
    requires 8 <= |r| && k <= 8 && Fits(Reversed(byte), k)
    ensures Xor(r, Resize(byte, |r|))[..8] == Xor(r[..8], AtTop(8, Reversed(byte)[..k]))
  {
    ByteInWide(r, byte, 8, k);
    assert Shl(Resize(byte, |r|), 0) == Resize(byte, |r|);
  }

  lemma WidePolyMirrors(p: Parameters)
    requires p.Valid()
    ensures Reversed(ReflectLow(p.polynomial, p.w)) == p.WidePoly()
  {
  }

  lemma StreamOne(reflect: bool, b: Byte)
    ensures Stream(reflect, [b]) == if reflect then b else Reversed(b)
  {
    assert Stream(reflect, []) == [];
  }

  lemma StreamNext(reflect: bool, data: seq<Byte>, i: nat)
    requires i < |data|
    ensures Stream(reflect, data[..i + 1]) ==
            Stream(reflect, data[..i]) + (if reflect then data[i] else Reversed(data[i]))
  {
    assert data[..i + 1][..i] == data[..i];
  }

  /** One more byte of the data has gone through. */
  lemma TracksByte(p: Parameters, r0: Word, data: seq<Byte>, i: nat, r: Word, r': Word)
    requires p.Valid() && |r0| == p.n && i < |data| && Tracks(p, r0, Stream(p.reflectInput, data[..i]), r)
    requires Tracks(p, r, if p.reflectInput then data[i] else Reversed(data[i]), r')
    ensures Tracks(p, r0, Stream(p.reflectInput, data[..i + 1]), r')
  {
    StreamNext(p.reflectInput, data, i);
    TracksAppend(p, r0, Stream(p.reflectInput, data[..i]), r, if p.reflectInput then data[i] else Reversed(data[i]), r');
  }

  // ----- one group of at most eight bits, in each of the three forms

  lemma PassReflected(p: Parameters, r: Word, byte: Byte, k: nat, r': Word)
    requires p.Valid() && p.reflectInput && |r| == |r'| == p.n && k <= 8 && Fits(byte, k)
    requires Reversed(r') ==
             Feed(Reversed(ReflectLow(p.polynomial, p.w)), Reversed(Xor(r, Resize(byte, p.n))), Zeros(k))
    ensures Tracks(p, r, byte[..k], r')
  {
    WidePolyMirrors(p);
    ByteInReflected(r, byte, k);
    TopThenShift(p.WidePoly(), Reversed(r), byte[..k]);
    ReversedTwice(r');
  }

  lemma PassWide(p: Parameters, r: Word, byte: Byte, k: nat, r': Word)
    requires p.Valid() && !p.reflectInput && 8 <= p.w && |r| == |r'| == p.n && k <= 8 && Fits(Reversed(byte), k)
    requires r'[..p.w] == Feed(p.Poly(), Xor(r, Shl(Resize(byte, p.n), p.w - 8))[..p.w], Zeros(k))
    ensures Tracks(p, r, Reversed(byte)[..k], r')
  {
    ByteInWide(r, byte, p.w, k);
    TopThenShift(p.Poly(), r[..p.w], Reversed(byte)[..k]);
  }

  /** A sub-byte register sits at the top of a byte, above `8 - w` zero bits. */
  ghost predicate SmallTracks(p: Parameters, r0: Word, bits: Word, r: Word)
    requires p.Valid() && p.w < 8 && |r0| == p.n
  {
    |r| == p.n && r[..8] == Zeros(8 - p.w) + Feed(p.Poly(), r0[..p.w], bits)
  }

  lemma SmallEnter(p: Parameters, r0: Word)
    requires p.Valid() && p.w < 8 && |r0| == p.n
    ensures SmallTracks(p, r0, [], Shl(r0, 8 - p.w))
    ensures Shl(p.polynomial, 8 - p.w)[..8] == Zeros(8 - p.w) + p.Poly()
  {
    assert Shl(r0, 8 - p.w)[..8] == Zeros(8 - p.w) + r0[..p.w];
  }

  lemma SmallLeave(p: Parameters, r0: Word, bits: Word, r: Word)
    requires p.Valid() && !p.reflectInput && p.w < 8 && |r0| == p.n && SmallTracks(p, r0, bits, r)
    ensures Tracks(p, r0, bits, Shr(r, 8 - p.w))
  {
    var x := Shr(r, 8 - p.w);
    forall i | 0 <= i < p.w
      ensures x[i] == Feed(p.Poly(), r0[..p.w], bits)[i]
    {
      assert x[i] == r[..8][i + (8 - p.w)];
    }
  }

  lemma PassSmall(p: Parameters, r0: Word, bits: Word, r: Word, byte: Byte, k: nat, r': Word)
    requires p.Valid() && p.w < 8 && |r0| == |r'| == p.n && k <= 8 && Fits(Reversed(byte), k)
    requires SmallTracks(p, r0, bits, r)
    requires r'[..8] == Feed(Zeros(8 - p.w) + p.Poly(), Xor(r, Resize(byte, p.n))[..8], Zeros(k))
    ensures SmallTracks(p, r0, bits + Reversed(byte)[..k], r')
  {
    var next := Reversed(byte)[..k];
    var f := Feed(p.Poly(), r0[..p.w], bits);
    assert r'[..8] == Feed(Zeros(8 - p.w) + p.Poly(), r[..8], next) by {
      ByteInSmall(r, byte, k);
      TopThenShift(Zeros(8 - p.w) + p.Poly(), r[..8], next);
    }
    Widen(p.Poly(), f, 8 - p.w, next);
    FeedAppend(p.Poly(), r0[..p.w], bits, next);
  }

  // ----- CalculateRemainder, bit by bit

  method CalculateRemainder(data: seq<Byte>, p: Parameters, remainder: Word) returns (r: Word)
    requires p.Valid() && |remainder| == p.n
    ensures Tracks(p, remainder, Stream(p.reflectInput, data), r)
  {
    if p.reflectInput {
      r := RemainderReflected(data, p, remainder);
    } else if p.w >= CHAR_BIT {
      r := RemainderWide(data, p, remainder);
    } else {
      r := RemainderSmall(data, p, remainder);
    }
  }

  lemma NextReflected(p: Parameters, r0: Word, data: seq<Byte>, i: nat, r: Word, r': Word)
    requires p.Valid() && |r0| == p.n && p.reflectInput && i < |data|
    requires Tracks(p, r0, Stream(true, data[..i]), r) && |r'| == p.n
    requires Reversed(r') ==
             Feed(Reversed(ReflectLow(p.polynomial, p.w)), Reversed(Xor(r, Resize(data[i], p.n))), Zeros(8))
    ensures Tracks(p, r0, Stream(true, data[..i + 1]), r')
  {
    PassByteReflected(p, r, data[i], r');
    TracksByte(p, r0, data, i, r, r');
  }

  lemma PassByteReflected(p: Parameters, r: Word, byte: Byte, r': Word)
    requires p.Valid() && p.reflectInput && |r| == |r'| == p.n
    requires Reversed(r') ==
             Feed(Reversed(ReflectLow(p.polynomial, p.w)), Reversed(Xor(r, Resize(byte, p.n))), Zeros(8))
    ensures Tracks(p, r, byte, r')
  {
    PassReflected(p, r, byte, 8, r');
    assert byte[..8] == byte;
  }

  method RemainderReflected(data: seq<Byte>, p: Parameters, remainder: Word) returns (r: Word)
    requires p.Valid() && |remainder| == p.n && p.reflectInput
    ensures Tracks(p, remainder, Stream(true, data), r)
  {
    var polynomial := Reflect(p.polynomial, p.w);
    r := remainder;
    TracksStart(p, r);
    assert data[..0] == [];
    for i := 0 to |data|
      invariant Tracks(p, remainder, Stream(true, data[..i]), r)
    {
      ghost var before := r;
      var x := Xor(r, Resize(data[i], p.n));
      r := ShiftRight(x, polynomial, CHAR_BIT);
      NextReflected(p, remainder, data, i, before, r);
    }
    assert data[..|data|] == data;
  }

  method RemainderWide(data: seq<Byte>, p: Parameters, remainder: Word) returns (r: Word)
    requires p.Valid() && |remainder| == p.n && !p.reflectInput && p.w >= CHAR_BIT
    ensures Tracks(p, remainder, Stream(false, data), r)
  {
    var shift := p.w - CHAR_BIT;
    r := remainder;
    for i := 0 to |data|
      invariant Tracks(p, remainder, Stream(false, data[..i]), r)
    {
      ghost var before := r;
      r := Xor(r, Shl(Resize(data[i], p.n), shift));
      r := ShiftLeft(r, p.polynomial, p.w - 1, CHAR_BIT);
      PassWide(p, before, data[i], 8, r);
      assert Reversed(data[i])[..8] == Reversed(data[i]);
      TracksByte(p, remainder, data, i, before, r);
    }
    assert data[..|data|] == data;
  }

  method RemainderSmall(data: seq<Byte>, p: Parameters, remainder: Word) returns (r: Word)
    requires p.Valid() && |remainder| == p.n && !p.reflectInput && p.w < CHAR_BIT
    ensures Tracks(p, remainder, Stream(false, data), r)
  {
    var shift := CHAR_BIT - p.w;
    var polynomial := Shl(p.polynomial, shift);
    r := Shl(remainder, shift);
    SmallEnter(p, remainder);
    for i := 0 to |data|
      invariant SmallTracks(p, remainder, Stream(false, data[..i]), r)
    {
      ghost var before := r;
      r := Xor(r, Resize(data[i], p.n));
      r := ShiftLeft(r, polynomial, CHAR_BIT - 1, CHAR_BIT);
      PassSmall(p, remainder, Stream(false, data[..i]), before, data[i], 8, r);
      assert Reversed(data[i])[..8] == Reversed(data[i]);
      StreamNext(false, data, i);
    }
    assert data[..|data|] == data;
    SmallLeave(p, remainder, Stream(false, data), r);
    r := Shr(r, shift);
  }

  // ----- CalculateRemainderBits

  /** The bits of a partly used byte: the first k in stream order, the others being zero. */
  ghost predicate Padded(p: Parameters, byte: Byte, k: nat) {
    Fits(if p.reflectInput then byte else Reversed(byte), k)
  }

  function FirstBits(p: Parameters, byte: Byte, k: nat): Word
    requires k <= 8
  {
    (if p.reflectInput then byte else Reversed(byte))[..k]
  }

  method CalculateRemainderBits(byte: Byte, numBits: nat, p: Parameters, remainder: Word) returns (r: Word)
    requires p.Valid() && |remainder| == p.n && numBits <= 8 && Padded(p, byte, numBits)
    ensures Tracks(p, remainder, FirstBits(p, byte, numBits), r)
  {
    if p.reflectInput {
      var polynomial := Reflect(p.polynomial, p.w);
      r := Xor(remainder, Resize(byte, p.n));
      r := ShiftRight(r, polynomial, numBits);
      PassReflected(p, remainder, byte, numBits, r);
    } else if p.w >= CHAR_BIT {
      r := Xor(remainder, Shl(Resize(byte, p.n), p.w - CHAR_BIT));
      r := ShiftLeft(r, p.polynomial, p.w - 1, numBits);
      PassWide(p, remainder, byte, numBits, r);
    } else {
      var shift := CHAR_BIT - p.w;
      var polynomial := Shl(p.polynomial, shift);
      SmallEnter(p, remainder);
      r := Xor(Shl(remainder, shift), Resize(byte, p.n));
      r := ShiftLeft(r, polynomial, CHAR_BIT - 1, numBits);
      PassSmall(p, remainder, [], Shl(remainder, shift), byte, numBits, r);
      assert [] + Reversed(byte)[..numBits] == Reversed(byte)[..numBits];
      SmallLeave(p, remainder, Reversed(byte)[..numBits], r);
      r := Shr(r, shift);
    }
  }
}
