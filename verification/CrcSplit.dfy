/**
 Multi-part calculation at every width: the exact condition on the parameters.

 Between two parts, only bits above the CRC width can get lost: what is left there of the initial
 value, and what the final XOR has there.  Those bits come down into the register later, and the law
 holds exactly when they never show at the end of a byte.  That is a finite question about the
 parameters alone.
 */
module CrcSplit {
  import opened Bits
  import opened CrcSpec
  import opened CrcPoly
  import opened CrcCode
  import opened CrcCalculate
  import opened CrcHigh
  import opened CrcTheorems

  /** The bits that finishing and resuming changes after a first part of m bytes. */
  function LeftOver(p: Parameters, m: nat): (d: Word)
    requires p.Valid()
    ensures |d| == p.n
    ensures forall i :: 0 <= i < p.n ==> d[i] == (i >= p.w && LeftOverBit(p, m, i))
  {
    seq(p.n, i requires 0 <= i < p.n => i >= p.w && LeftOverBit(p, m, i))
  }

  predicate LeftOverBit(p: Parameters, m: nat, i: nat)
    requires p.Valid() && i < p.n
  {
    Coeff(p.initialValue, i + 8 * m) != (!Toggle(p) && p.finalXOR[i])
  }

  /** After k zero bytes nothing of d is in the CRC bits. */
  predicate Silent(p: Parameters, d: Word, k: nat)
    requires p.Valid() && |d| == p.n
  {
    RemainderOf(p, d, Zeros(8 * k))[..p.w] == Zeros(p.w)
  }

  /** A finite check: no left-over difference shows, for first and second parts of up to n bytes. */
  predicate LeftOverSilent(p: Parameters)
    requires p.Valid()
  {
    p.reflectInput ==> forall m, k :: 0 <= m <= p.n && 0 <= k <= p.n ==> Silent(p, LeftOver(p, m), k)
  }

  // ----- finishing and resuming

  /** What finishing and resuming makes of a remainder. */
  function Resumed(p: Parameters, x: Word): (y: Word)
    requires p.Valid() && |x| == p.n
    ensures |y| == p.n
  {
    UndoFinalize(p, Finalize(p, x, Toggle(p)), Toggle(p))
  }

  lemma ResumedAt(p: Parameters, x: Word, i: nat)
    requires p.Valid() && |x| == p.n && i < p.n
    ensures Resumed(p, x)[i] == if i < p.w then x[i] else !Toggle(p) && p.finalXOR[i]
  {
    if i < p.w {
      UndoAt(p, x, Toggle(p), i);
    } else {
      UndoHigh(p, x, i);
    }
  }

  lemma DifferenceIs(p: Parameters, x: Word, y: Word, m: nat)
    requires p.Valid() && |x| == |y| == p.n
    requires forall i {:trigger Coeff(x, i)} :: p.w <= i < p.n ==> Coeff(x, i) == Coeff(p.initialValue, i + 8 * m)
    requires forall i :: 0 <= i < p.n ==> y[i] == if i < p.w then x[i] else !Toggle(p) && p.finalXOR[i]
    ensures Xor(x, y) == LeftOver(p, m)
  {
    forall i | 0 <= i < p.n ensures Xor(x, y)[i] == LeftOver(p, m)[i] {
      assert Coeff(x, i) == x[i];
    }
  }

  lemma ResumedDiffers(p: Parameters, x: Word, m: nat)
    requires p.Valid() && |x| == p.n
    requires forall i {:trigger Coeff(x, i)} :: p.w <= i < p.n ==> Coeff(x, i) == Coeff(p.initialValue, i + 8 * m)
    ensures Xor(x, Resumed(p, x)) == LeftOver(p, m)
  {
    forall i | 0 <= i < p.n ensures Resumed(p, x)[i] == if i < p.w then x[i] else !Toggle(p) && p.finalXOR[i] {
      ResumedAt(p, x, i);
    }
    DifferenceIs(p, x, Resumed(p, x), m);
  }

  /** What finishing after m bytes and resuming changes is the left-over difference. */
  lemma LeftOverIs(p: Parameters, bits: Word, m: nat, x: Word)
    requires p.Valid() && p.reflectInput && |bits| == 8 * m && x == RemainderOf(p, p.initialValue, bits)
    ensures Xor(x, Resumed(p, x)) == LeftOver(p, m)
  {
    forall i | p.w <= i < p.n ensures Coeff(x, i) == Coeff(p.initialValue, i + 8 * m) {
      RemainderHigh(p, p.initialValue, bits, i);
    }
    ResumedDiffers(p, x, m);
  }

  lemma UndoHigh(p: Parameters, x: Word, i: nat)
    requires p.Valid() && |x| == p.n && p.w <= i < p.n
    ensures UndoFinalize(p, Finalize(p, x, Toggle(p)), Toggle(p))[i] == (!Toggle(p) && p.finalXOR[i])
  {
  }

  // ----- one pair of parts

  /** Registers fed the same bits differ by what their difference becomes when fed zeros. */
  lemma DifferenceFed(p: Parameters, x: Word, y: Word, bits: Word)
    requires p.Valid() && p.reflectInput && |x| == |y| == p.n
    ensures Xor(RemainderOf(p, x, bits), RemainderOf(p, y, bits)) == RemainderOf(p, Xor(x, y), Zeros(|bits|))
  {
    assert Zeros(|bits|) == Xor(bits, bits);
    MirrorOfXor(x, y);
    FeedLinear(p.WidePoly(), Reversed(x), Reversed(y), bits, bits);
    MirrorOfXor(Feed(p.WidePoly(), Reversed(x), bits), Feed(p.WidePoly(), Reversed(y), bits));
  }

  lemma LowXorZero(a: Word, b: Word, w: nat)
    requires w <= |a| == |b|
    ensures Xor(a, b)[..w] == Zeros(w) <==> a[..w] == b[..w]
  {
    if a[..w] == b[..w] {
      SameLowXor(a, b, w);
    }
    if Xor(a, b)[..w] == Zeros(w) {
      forall i | 0 <= i < w ensures a[i] == b[i] {
        assert !Xor(a, b)[..w][i];
      }
    }
  }

  lemma SameCrcIff(p: Parameters, a: Word, b: Word)
    requires p.Valid() && |a| == |b| == p.n
    ensures Finalize(p, a, Toggle(p)) == Finalize(p, b, Toggle(p)) <==> a[..p.w] == b[..p.w]
  {
    if a[..p.w] == b[..p.w] {
      FinalizeLow(p, a, b, Toggle(p));
    }
    if Finalize(p, a, Toggle(p)) == Finalize(p, b, Toggle(p)) {
      FinalizeInjective(p, a, b, Toggle(p));
    }
  }

  /** Two given parts combine exactly when the left-over difference does not show. */
  lemma PartsCombineIff(p: Parameters, a: seq<Byte>, b: seq<Byte>)
    requires p.Valid() && p.reflectInput
    ensures CrcMore(p, b, Crc(p, a)) == Crc(p, a + b) <==> Silent(p, LeftOver(p, |a|), |b|)
  {
    var x := RemainderOf(p, p.initialValue, Stream(true, a));
    var y := Resumed(p, x);
    var bits := Stream(true, b);
    StreamAppend(true, a, b);
    RemainderAppend(p, p.initialValue, Stream(true, a), bits);
    SameCrcIff(p, RemainderOf(p, y, bits), RemainderOf(p, x, bits));
    LeftOverIs(p, Stream(true, a), |a|, x);
    DifferenceFed(p, x, y, bits);
    LowXorZero(RemainderOf(p, x, bits), RemainderOf(p, y, bits), p.w);
  }

  // ----- parts of up to n bytes decide

  lemma {:induction false} ZeroStays(poly: Word, k: nat)
    requires 0 < |poly|
    ensures Feed(poly, Zeros(|poly|), Zeros(k)) == Zeros(|poly|)
  {
    if k > 0 {
      ZeroStays(poly, k - 1);
      FeedZero(poly, Zeros(|poly|), k - 1);
      StepIsShift(poly, Zeros(|poly|), false);
      assert Shl(Zeros(|poly|), 1) == Zeros(|poly|);
    }
  }

  lemma ZeroRemains(p: Parameters, k: nat)
    requires p.Valid() && p.reflectInput
    ensures RemainderOf(p, Zeros(p.n), Zeros(k)) == Zeros(p.n)
  {
    assert Reversed(Zeros(p.n)) == Zeros(p.n);
    ZeroStays(p.WidePoly(), k);
  }

  /** A difference that is silent after n bytes is gone, and stays silent. */
  lemma SilentForever(p: Parameters, d: Word, k: nat)
    requires p.Valid() && p.reflectInput && |d| == p.n && Silent(p, d, p.n) && k >= p.n
    ensures Silent(p, d, k)
  {
    var r := RemainderOf(p, d, Zeros(8 * p.n));
    LongInputFits(p, d);
    LowAndHighZero(r, p.w);
    assert Zeros(8 * k) == Zeros(8 * p.n) + Zeros(8 * (k - p.n));
    RemainderAppend(p, d, Zeros(8 * p.n), Zeros(8 * (k - p.n)));
    ZeroRemains(p, 8 * (k - p.n));
    assert Zeros(p.n)[..p.w] == Zeros(p.w);
  }

  lemma LowAndHighZero(r: Word, w: nat)
    requires w <= |r| && r[..w] == Zeros(w) && Fits(r, w)
    ensures r == Zeros(|r|)
  {
    forall i | 0 <= i < |r| ensures !r[i] {
      if i < w {
        assert !r[..w][i];
      }
    }
  }

  lemma LeftOverSettles(p: Parameters, m: nat)
    requires p.Valid() && m >= p.n
    ensures LeftOver(p, m) == LeftOver(p, p.n)
  {
  }

  lemma SilentAlways(p: Parameters, m: nat, k: nat)
    requires p.Valid() && p.reflectInput && LeftOverSilent(p)
    ensures Silent(p, LeftOver(p, m), k)
  {
    var m' := if m <= p.n then m else p.n;
    if m > p.n {
      LeftOverSettles(p, m);
    }
    assert Silent(p, LeftOver(p, m'), p.n);
    if k > p.n {
      SilentForever(p, LeftOver(p, m'), k);
    }
  }

  /** At every width, parts can be combined for all data if and only if no left-over difference shows. */
  lemma MultiPartIff(p: Parameters)
    requires p.Valid()
    ensures MultiPartLaw(p) <==> LeftOverSilent(p)
  {
    if p.reflectInput {
      if MultiPartLaw(p) {
        forall m, k | 0 <= m <= p.n && 0 <= k <= p.n ensures Silent(p, LeftOver(p, m), k) {
          PartsCombineIff(p, Blank(m), Blank(k));
        }
      }
      if LeftOverSilent(p) {
        forall a: seq<Byte>, b: seq<Byte> ensures CrcMore(p, b, Crc(p, a)) == Crc(p, a + b) {
          SilentAlways(p, |a|, |b|);
          PartsCombineIff(p, a, b);
        }
      }
    } else {
      forall a: seq<Byte>, b: seq<Byte> ensures CrcMore(p, b, Crc(p, a)) == Crc(p, a + b) {
        MultiPart(p, a, b);
      }
    }
  }

  /** Parameters that fit never leave anything over, and from a byte on no others are silent. */
  lemma SplitSafeIsSilent(p: Parameters)
    requires p.Valid()
    ensures SplitSafe(p) ==> LeftOverSilent(p)
    ensures 8 <= p.w ==> (LeftOverSilent(p) <==> SplitSafe(p))
  {
    MultiPartIff(p);
    if SplitSafe(p) {
      forall a: seq<Byte>, b: seq<Byte> ensures CrcMore(p, b, Crc(p, a)) == Crc(p, a + b) {
        MultiPart(p, a, b);
      }
    }
    if 8 <= p.w {
      WideMultiPartIff(p);
    }
  }

  // ----- below a byte, parameters that do not fit may still be silent

  /** A one-bit CRC with polynomial 0 and an initial value that does not fit. */
  function OneBit(): (p: Parameters)
    ensures p.Valid()
  {
    Parameters(8, 1, Zeros(8), [false, false, false, false, false, true, false, false], Zeros(8), true, true)
  }

  /** Eight bits wide in sixteen, and an initial value that does not fit. */
  function EightInSixteen(): (p: Parameters)
    ensures p.Valid()
  {
    Parameters(16, 8, Zeros(16), Zeros(8) + [true] + Zeros(7), Zeros(16), true, true)
  }

  /** There the CRC of some second part, continued, is not the CRC of the whole. */
  lemma PartsNeedNotCombine()
    ensures !MultiPartLaw(EightInSixteen()) && !LeftOverSilent(EightInSixteen())
  {
    var p := EightInSixteen();
    assert p.initialValue[8];
    WideMultiPartIff(p);
    MultiPartIff(p);
  }

  /** It does not fit, and yet its parts combine: the left-over bit is gone before a byte is over. */
  lemma NarrowNeedNotFit()
    ensures !SplitSafe(OneBit()) && MultiPartLaw(OneBit())
  {
    var p := OneBit();
    assert p.initialValue[5];
    OneBitPoly();
    forall m, k | 0 <= m <= p.n && 0 <= k <= p.n ensures Silent(p, LeftOver(p, m), k) {
      ZeroPolySilent(p, LeftOver(p, m), k);
    }
    MultiPartIff(p);
  }

  lemma LowBit(r: Word)
    requires |r| == 8 && !Coeff(r, 0)
    ensures r[..1] == Zeros(1)
  {
  }

  /** One bit wide, with the zero polynomial, in a byte: nothing shows at the end of a byte. */
  lemma ZeroPolySilent(p: Parameters, d: Word, k: nat)
    requires p.Valid() && p.reflectInput && p.n == 8 && p.w == 1 && LowZero(p.WidePoly(), 8)
    requires |d| == 8 && !Coeff(d, 0)
    ensures Silent(p, d, k)
  {
    MirrorOf(d);
    RemainderMirror(p, d, Zeros(8 * k));
    MirroredFeed(p.WidePoly(), d, Reversed(d), Zeros(8 * k), RemainderOf(p, d, Zeros(8 * k)), 8, 0, 7, 7 - 8 * k, 8 * k);
    LowBit(RemainderOf(p, d, Zeros(8 * k)));
  }

  lemma OneBitPoly()
    ensures LowZero(OneBit().WidePoly(), 8)
  {
  }
}
