/** The laws of the calculator. */
module CrcTheorems {
  import Basics
  import opened Bits
  import opened CrcSpec
  import opened CrcPoly
  import opened CrcCode
  import opened CrcTable
  import opened CrcCalculate
  import opened CrcHigh

  // ----- every form computes the same thing, and it is polynomial division

  /** Any two remainders of the same data, bit by bit or by table, agree on the CRC. */
  lemma RemaindersAgree(p: Parameters, r0: Word, bits: Word, r: Word, r': Word)
    requires p.Valid() && |r0| == p.n && Tracks(p, r0, bits, r) && Tracks(p, r0, bits, r')
    ensures r[..p.w] == r'[..p.w]
    ensures Finalize(p, r, Toggle(p)) == Finalize(p, r', Toggle(p))
  {
    FinalizeLow(p, r, r', Toggle(p));
  }

  /**
   For input that is not reflected the low w bits are the remainder of init * x^8n + M * x^w
   by x^w + polynomial: they satisfy the division equation, and nothing else of that length does.
   */
  lemma RemainderIsDivision(p: Parameters, r0: Word, data: seq<Byte>, r: Word)
    requires p.Valid() && !p.reflectInput && |r0| == |r| == p.n
    ensures Tracks(p, r0, Stream(false, data), r) <==>
            exists q :: Division(p.Poly(), r0[..p.w], Stream(false, data), q, r[..p.w])
  {
    var bits := Stream(false, data);
    RegisterDivides(p.Poly(), r0[..p.w], bits);
    if Tracks(p, r0, bits, r) {
      assert Division(p.Poly(), r0[..p.w], bits, Quotient(p.Poly(), r0[..p.w], bits), r[..p.w]);
    }
    if q :| Division(p.Poly(), r0[..p.w], bits, q, r[..p.w]) {
      RemainderIsRegister(p.Poly(), r0[..p.w], bits, q, r[..p.w]);
    }
  }

  /** init * x^n + M * x^w == q * (x^w + poly) + rem over GF(2). */
  ghost predicate Division(poly: Word, init: Word, message: Word, q: Poly, rem: Word) {
    Same(Dividend(|poly|, init, message), Add(Mul(q, Generator(poly)), rem))
  }

  // ----- reflected and unreflected forms mirror each other

  lemma FittingMirror(r0: Word, w: nat)
    requires w <= |r0| && Fits(r0, w)
    ensures Reversed(r0) == Zeros(|r0| - w) + Reversed(r0[..w])
  {
  }

  /** A reflected register that fits w bits is the mirror image of a w-bit register, and goes on fitting. */
  lemma ReflectedRegister(p: Parameters, r0: Word, bits: Word)
    requires p.Valid() && p.reflectInput && |r0| == p.n && Fits(r0, p.w)
    ensures RemainderOf(p, r0, bits) == Resize(Reversed(Feed(p.Poly(), Reversed(r0[..p.w]), bits)), p.n)
  {
    FittingMirror(r0, p.w);
    WideFeed(p, Reversed(r0), Reversed(r0[..p.w]), bits);
    MirrorOfPadded(Feed(p.Poly(), Reversed(r0[..p.w]), bits), p.n);
  }

  lemma WideFeed(p: Parameters, wide: Word, r: Word, bits: Word)
    requires p.Valid() && |r| == p.w && wide == Zeros(p.n - p.w) + r
    ensures Feed(p.WidePoly(), wide, bits) == Zeros(p.n - p.w) + Feed(p.Poly(), r, bits)
  {
    PaddedFeed(p.WidePoly(), p.Poly(), wide, r, p.n - p.w, bits);
  }

  lemma PaddedFeed(widePoly: Word, poly: Word, wide: Word, r: Word, pad: nat, bits: Word)
    requires |r| == |poly| > 0 && widePoly == Zeros(pad) + poly && wide == Zeros(pad) + r
    ensures |wide| == |widePoly| && Feed(widePoly, wide, bits) == Zeros(pad) + Feed(poly, r, bits)
  {
    Widen(poly, r, pad, bits);
  }

  function MirrorBytes(data: seq<Byte>): (m: seq<Byte>)
    ensures |m| == |data|
    ensures forall i :: 0 <= i < |m| ==> m[i] == Reversed(data[i])
  {
    if |data| == 0 then [] else [Reversed(data[0])] + MirrorBytes(data[1..])
  }

  lemma {:induction false} MirrorStream(data: seq<Byte>)
    ensures Stream(false, MirrorBytes(data)) == Stream(true, data)
    decreases |data|
  {
    if |data| > 0 {
      var n := |data| - 1;
      MirrorStream(data[..n]);
      assert MirrorBytes(data)[..n] == MirrorBytes(data[..n]);
      ReversedTwice(data[n]);
    }
  }

  /** Reflecting the register before and after, and every byte of input, turns one algorithm into the other. */
  lemma ReflectedMirrorsUnreflected(p: Parameters, r0: Word, data: seq<Byte>)
    requires p.Valid() && p.reflectInput && |r0| == p.n && Fits(r0, p.w)
    ensures var q := p.(reflectInput := false);
            RemainderOf(p, r0, Stream(true, data)) ==
            ReflectLow(RemainderOf(q, ReflectLow(r0, p.w), Stream(false, MirrorBytes(data))), p.w)
  {
    var bits := Stream(true, data);
    MirrorStream(data);
    ReflectedRegister(p, r0, bits);
    LowOfReflect(r0, p.w);
    var f := Feed(p.Poly(), Reversed(r0[..p.w]), bits);
    ResizedPrefix(f, p.n);
  }

  lemma LowOfReflect(r: Word, w: nat)
    requires w <= |r|
    ensures ReflectLow(r, w)[..w] == Reversed(r[..w])
  {
  }

  // ----- residue

  /** The bytes of a register, most significant first. */
  function BigEndian(c: Word): (bytes: seq<Byte>)
    requires |c| % 8 == 0
    decreases |c|
  {
    if |c| == 0 then [] else [c[|c| - 8..]] + BigEndian(c[..|c| - 8])
  }

  lemma {:induction false} StreamAppend(reflect: bool, a: seq<Byte>, b: seq<Byte>)
    ensures Stream(reflect, a + b) == Stream(reflect, a) + Stream(reflect, b)
    decreases |b|
  {
    if |b| == 0 {
      assert a + b == a;
    } else {
      var n := |b| - 1;
      assert (a + b)[..|a + b| - 1] == a + b[..n];
      StreamAppend(reflect, a, b[..n]);
      Basics.Joins(Stream(reflect, a), Stream(reflect, b[..n]), if reflect then b[n] else Reversed(b[n]));
    }
  }

  lemma ReversedParts(lo: Word, hi: Word)
    ensures Reversed(lo + hi) == Reversed(hi) + Reversed(lo)
  {
  }

  lemma {:induction false} BigEndianStream(c: Word)
    requires |c| % 8 == 0
    ensures Stream(false, BigEndian(c)) == Reversed(c)
    decreases |c|
  {
    if |c| > 0 {
      var hi, lo := c[|c| - 8..], c[..|c| - 8];
      BigEndianStream(lo);
      FirstByte(hi, lo, BigEndian(lo));
      assert c == lo + hi;
      assert BigEndian(c) == [hi] + BigEndian(lo);
    }
  }

  lemma FirstByte(hi: Byte, lo: Word, bytes: seq<Byte>)
    requires Stream(false, bytes) == Reversed(lo)
    ensures Stream(false, [hi] + bytes) == Reversed(lo + hi)
  {
    StreamAppend(false, [hi], bytes);
    StreamOne(false, hi);
    ReversedParts(lo, hi);
  }

  /** A message followed by its own CRC, most significant byte first, has CRC zero. */
  lemma CodewordResidue(p: Parameters, data: seq<Byte>)
    requires p.Valid() && !p.reflectInput && !p.reflectOutput && p.finalXOR == Zeros(p.n) && p.w % 8 == 0
    ensures Crc(p, data + BigEndian(Crc(p, data)[..p.w])) == Zeros(p.n)
  {
    var bits := Stream(false, data);
    var r := Feed(p.Poly(), p.initialValue[..p.w], bits);
    var c := Crc(p, data)[..p.w];
    PlainFinalize(p, RemainderOf(p, p.initialValue, bits));
    ResizedPrefix(r, p.n);
    assert c == r;
    BigEndianStream(c);
    StreamAppend(false, data, BigEndian(c));
    ResidueZero(p.Poly(), p.initialValue[..p.w], bits);
    ZeroCrc(p, bits + Reversed(c));
  }

  lemma ZeroCrc(p: Parameters, bits: Word)
    requires p.Valid() && !p.reflectInput && !p.reflectOutput && p.finalXOR == Zeros(p.n)
    requires Feed(p.Poly(), p.initialValue[..p.w], bits) == Zeros(p.w)
    ensures CrcFrom(p, p.initialValue, bits) == Zeros(p.n)
  {
    PlainFinalize(p, RemainderOf(p, p.initialValue, bits));
    assert Resize(Zeros(p.w), p.n) == Zeros(p.n);
    assert KeepLow(Zeros(p.n), p.w) == Zeros(p.n);
  }

  lemma PlainFinalize(p: Parameters, r: Word)
    requires p.Valid() && |r| == p.n && p.finalXOR == Zeros(p.n)
    ensures Finalize(p, r, false) == KeepLow(r, p.w)
    ensures Finalize(p, r, false)[..p.w] == r[..p.w]
  {
    assert Xor(r, Zeros(p.n)) == r;
  }

  // ----- multi-part calculation

  /** Left-over bits of the parameters cannot reach the CRC. */
  predicate SplitSafe(p: Parameters)
    requires p.Valid()
  {
    p.reflectInput ==> Fits(p.initialValue, p.w) && (p.reflectOutput ==> Fits(p.finalXOR, p.w))
  }

  lemma RemainderAppend(p: Parameters, r0: Word, a: Word, b: Word)
    requires p.Valid() && |r0| == p.n
    ensures RemainderOf(p, r0, a + b) == RemainderOf(p, RemainderOf(p, r0, a), b)
  {
    if p.reflectInput {
      FeedAppend(p.WidePoly(), Reversed(r0), a, b);
      ReversedTwice(Feed(p.WidePoly(), Reversed(r0), a));
    } else {
      FeedAppend(p.Poly(), r0[..p.w], a, b);
      ResizedPrefix(Feed(p.Poly(), r0[..p.w], a), p.n);
    }
  }

  /** Calculating the second part from the CRC of the first gives the CRC of the whole. */
  lemma MultiPart(p: Parameters, a: seq<Byte>, b: seq<Byte>)
    requires p.Valid() && SplitSafe(p)
    ensures CrcMore(p, b, Crc(p, a)) == Crc(p, a + b)
  {
    var x := RemainderOf(p, p.initialValue, Stream(p.reflectInput, a));
    var y := UndoFinalize(p, Crc(p, a), Toggle(p));
    StreamAppend(p.reflectInput, a, b);
    RemainderAppend(p, p.initialValue, Stream(p.reflectInput, a), Stream(p.reflectInput, b));
    if p.reflectInput {
      assert y == x by {
        ReflectedRegister(p, p.initialValue, Stream(true, a));
        UndoFinalizeIff(p, x, Toggle(p));
      }
    } else {
      assert y[..p.w] == x[..p.w] by {
        UndoKeepsLow(p, x, Toggle(p));
      }
    }
  }

  // ----- and the condition for it is exact

  ghost predicate MultiPartLaw(p: Parameters)
    requires p.Valid()
  {
    forall a: seq<Byte>, b: seq<Byte> :: CrcMore(p, b, Crc(p, a)) == Crc(p, a + b)
  }

  /** Zero bytes. */
  function Blank(k: nat): (data: seq<Byte>)
    ensures |data| == k
    ensures Stream(true, data) == Zeros(8 * k)
  {
    if k == 0 then [] else
    assert Zeros(8 * k) == Zeros(8 * (k - 1)) + Zeros(8);
    var data: seq<Byte> := Blank(k - 1) + [Zeros(8)];
    assert data[..k - 1] == Blank(k - 1);
    data
  }

  /** The CRC determines the low w bits of the remainder. */
  lemma FinalizeInjective(p: Parameters, a: Word, b: Word, reflect: bool)
    requires p.Valid() && |a| == |b| == p.n && Finalize(p, a, reflect) == Finalize(p, b, reflect)
    ensures a[..p.w] == b[..p.w]
  {
    UndoKeepsLow(p, a, reflect);
    UndoKeepsLow(p, b, reflect);
  }

  /** Reflected registers are linear in the starting value. */
  lemma RemainderDifference(p: Parameters, x: Word, y: Word, k: nat)
    requires p.Valid() && p.reflectInput && |x| == |y| == p.n
    ensures RemainderOf(p, Xor(x, y), Zeros(k)) == Xor(RemainderOf(p, x, Zeros(k)), RemainderOf(p, y, Zeros(k)))
  {
    assert Zeros(k) == Xor(Zeros(k), Zeros(k));
    MirrorOfXor(x, y);
    FeedLinear(p.WidePoly(), Reversed(x), Reversed(y), Zeros(k), Zeros(k));
    MirrorOfXor(Feed(p.WidePoly(), Reversed(x), Zeros(k)), Feed(p.WidePoly(), Reversed(y), Zeros(k)));
  }

  lemma MirrorOfXor(x: Word, y: Word)
    requires |x| == |y|
    ensures Reversed(Xor(x, y)) == Xor(Reversed(x), Reversed(y))
  {
  }

  /** While its low k bits are zero, a reflected register only shifts. */
  lemma ReflectedShiftOnly(p: Parameters, d: Word, k: nat)
    requires p.Valid() && p.reflectInput && |d| == p.n && k <= p.n
    requires forall i :: 0 <= i < k ==> !d[i]
    ensures RemainderOf(p, d, Zeros(k)) == Shr(d, k)
  {
    ShiftOnly(p.WidePoly(), Reversed(d), k);
    assert Reversed(Shl(Reversed(d), k)) == Shr(d, k);
  }

  /** A bit left over above the register comes down into it after enough zero bytes. */
  lemma LeftOverShows(p: Parameters, d: Word, top: nat) returns (k: nat)
    requires p.Valid() && p.reflectInput && 8 <= p.w && |d| == p.n
    requires p.w <= top < p.n && d[top] && forall i :: 0 <= i < top ==> !d[i]
    ensures RemainderOf(p, d, Zeros(8 * k))[..p.w] != Zeros(p.w)
  {
    k := (top - p.w) / 8 + 1;
    ReflectedShiftOnly(p, d, 8 * k);
    assert Shr(d, 8 * k)[top - 8 * k];
    assert RemainderOf(p, d, Zeros(8 * k))[..p.w][top - 8 * k];
  }

  lemma LowestSet(d: Word, w: nat, i: nat) returns (top: nat)
    requires w <= i < |d| && d[i] && forall j :: 0 <= j < w ==> !d[j]
    ensures w <= top < |d| && d[top] && forall j :: 0 <= j < top ==> !d[j]
  {
    top := w;
    while !d[top]
      invariant w <= top <= i && forall j :: 0 <= j < top ==> !d[j]
      decreases i - top
    {
      top := top + 1;
    }
  }

  /** Registers that differ only above bit w come to differ below it after enough zero bytes. */
  lemma LeftOverVisible(p: Parameters, x: Word, y: Word) returns (k: nat)
    requires p.Valid() && p.reflectInput && 8 <= p.w && |x| == |y| == p.n && x[..p.w] == y[..p.w] && x != y
    ensures RemainderOf(p, x, Zeros(8 * k))[..p.w] != RemainderOf(p, y, Zeros(8 * k))[..p.w]
  {
    var d := Xor(x, y);
    SameLowXor(x, y, p.w);
    assert forall j :: 0 <= j < p.w ==> !d[..p.w][j];
    var i :| 0 <= i < p.n && x[i] != y[i];
    var top := LowestSet(d, p.w, i);
    k := LeftOverShows(p, d, top);
    RemainderDifference(p, x, y, 8 * k);
    var x', y' := RemainderOf(p, x, Zeros(8 * k)), RemainderOf(p, y, Zeros(8 * k));
    if x'[..p.w] == y'[..p.w] {
      SameLowXor(x', y', p.w);
    }
  }

  /** If the law holds, then undoing a finalisation restores the remainder after any first part. */
  lemma LawRestores(p: Parameters, a: seq<Byte>, x: Word)
    requires p.Valid() && p.reflectInput && 8 <= p.w && MultiPartLaw(p)
    requires x == RemainderOf(p, p.initialValue, Stream(true, a))
    ensures UndoFinalize(p, Finalize(p, x, Toggle(p)), Toggle(p)) == x
  {
    var y := UndoFinalize(p, Finalize(p, x, Toggle(p)), Toggle(p));
    UndoKeepsLow(p, x, Toggle(p));
    if y != x {
      var k := LeftOverVisible(p, x, y);
      LawOnBlank(p, a, k);
    }
  }

  lemma SameLowXor(a: Word, b: Word, w: nat)
    requires w <= |a| == |b| && a[..w] == b[..w]
    ensures Xor(a, b)[..w] == Zeros(w)
  {
    forall i | 0 <= i < w
      ensures a[i] == b[i]
    {
      assert a[..w][i] == b[..w][i];
    }
  }

  lemma LawOnBlank(p: Parameters, a: seq<Byte>, k: nat)
    requires p.Valid() && p.reflectInput && MultiPartLaw(p)
    ensures var x := RemainderOf(p, p.initialValue, Stream(true, a));
            var y := UndoFinalize(p, Finalize(p, x, Toggle(p)), Toggle(p));
            RemainderOf(p, x, Zeros(8 * k))[..p.w] == RemainderOf(p, y, Zeros(8 * k))[..p.w]
  {
    var x := RemainderOf(p, p.initialValue, Stream(true, a));
    var y := UndoFinalize(p, Finalize(p, x, Toggle(p)), Toggle(p));
    var b := Blank(k);
    assert CrcMore(p, b, Crc(p, a)) == Crc(p, a + b);
    StreamAppend(true, a, b);
    RemainderAppend(p, p.initialValue, Stream(true, a), Zeros(8 * k));
    FinalizeInjective(p, RemainderOf(p, x, Zeros(8 * k)), RemainderOf(p, y, Zeros(8 * k)), Toggle(p));
  }

  lemma LawNeedsFinalXor(p: Parameters)
    requires p.Valid() && 8 <= p.w && p.reflectInput && p.reflectOutput && MultiPartLaw(p)
    ensures Fits(p.finalXOR, p.w)
  {
    var x := RemainderOf(p, p.initialValue, Zeros(8 * p.n));
    LawRestores(p, Blank(p.n), x);
    LongInputFits(p, p.initialValue);
    UndoFinalizeIff(p, x, false);
    forall i | p.w <= i < p.n
      ensures !p.finalXOR[i]
    {
      assert !x[i];
    }
  }

  lemma LawNeedsInitialValue(p: Parameters)
    requires p.Valid() && 8 <= p.w && p.reflectInput && MultiPartLaw(p)
    requires p.reflectOutput ==> Fits(p.finalXOR, p.w)
    ensures Fits(p.initialValue, p.w)
  {
    EmptyRemainder(p);
    LawRestores(p, [], p.initialValue);
    RestoredFits(p, p.initialValue);
  }

  lemma RestoredFits(p: Parameters, x: Word)
    requires p.Valid() && p.reflectInput && |x| == p.n
    requires UndoFinalize(p, Finalize(p, x, Toggle(p)), Toggle(p)) == x
    requires p.reflectOutput ==> Fits(p.finalXOR, p.w)
    ensures Fits(x, p.w)
  {
    UndoFinalizeIff(p, x, Toggle(p));
  }

  /** For widths of at least a byte, parts can be combined exactly when the parameters are split-safe. */
  lemma WideMultiPartIff(p: Parameters)
    requires p.Valid() && 8 <= p.w
    ensures MultiPartLaw(p) <==> SplitSafe(p)
  {
    if SplitSafe(p) {
      forall a: seq<Byte>, b: seq<Byte>
        ensures CrcMore(p, b, Crc(p, a)) == Crc(p, a + b)
      {
        MultiPart(p, a, b);
      }
    } else if MultiPartLaw(p) {
      if p.reflectOutput {
        LawNeedsFinalXor(p);
      }
      LawNeedsInitialValue(p);
    }
  }

  lemma EmptyRemainder(p: Parameters)
    requires p.Valid() && p.reflectInput
    ensures RemainderOf(p, p.initialValue, Stream(true, [])) == p.initialValue
  {
    ReversedTwice(p.initialValue);
  }
}
