/**
 A register for reflected input is as wide as the machine word.  Its bits above the CRC width only
 move down, whatever the polynomial is.
 */
module CrcHigh {
  import opened Bits
  import opened CrcSpec
  import opened CrcPoly
  import opened CrcCode
  import opened CrcCalculate

  /** The lowest z bits of the polynomial are zero. */
  ghost predicate LowZero(poly: Word, z: nat) {
    z <= |poly| && forall j {:trigger Coeff(poly, j)} :: j < z ==> !Coeff(poly, j)
  }

  ghost predicate SameCoeff(a: Word, i: int, b: Word, k: int) { CoeffIs(a, i, Coeff(b, k)) }

  ghost predicate CoeffIs(a: Word, i: int, v: bool) { Coeff(a, i) == v }

  lemma LowStep(poly: Word, f: Word, b: bool, j: int, k: int)
    requires |f| == |poly| > 0 && j < |poly| && !Coeff(poly, j) && k == j - 1
    ensures SameCoeff(StepBit(poly, f, b), j, f, k)
  {
    StepCoeff(poly, f, b, j);
    GeneratorLow(poly, j);
  }

  lemma LowIsZero(poly: Word, z: nat, j: int)
    requires LowZero(poly, z) && j < z
    ensures j < |poly| && !Coeff(poly, j)
  {
  }

  lemma GeneratorLow(poly: Word, j: int)
    requires j < |poly|
    ensures Coeff(Generator(poly), j) == Coeff(poly, j)
  {
  }

  lemma SameCoeffTrans(a: Word, i: int, b: Word, k: int, c: Word, m: int)
    requires SameCoeff(a, i, b, k) && SameCoeff(b, k, c, m)
    ensures SameCoeff(a, i, c, m)
  {
  }

  /** Where the polynomial is zero, the register only shifts. */
  lemma {:induction false} LowShifts(poly: Word, f: Word, bits: Word, z: nat, j: int, k: int)
    requires |f| == |poly| > 0 && LowZero(poly, z) && j < z && k == j - |bits|
    ensures SameCoeff(Feed(poly, f, bits), j, f, k)
    decreases |bits|
  {
    if |bits| > 0 {
      var t := StepBit(poly, f, bits[0]);
      LowShifts(poly, t, bits[1..], z, j, k + 1);
      LowIsZero(poly, z, k + 1);
      LowStep(poly, f, bits[0], k + 1, k);
      SameCoeffTrans(Feed(poly, t, bits[1..]), j, t, k + 1, f, k);
    }
  }

  lemma WidePolyLow(p: Parameters)
    requires p.Valid()
    ensures LowZero(p.WidePoly(), p.n - p.w)
  {
  }

  ghost predicate IsMirror(a: Word, b: Word) { SameWord(a, Reversed(b)) }

  ghost predicate SameWord(a: Word, b: Word) { a == b }

  lemma MirrorAt(h: Word, g: Word, i: int, j: int)
    requires IsMirror(h, g) && i + j == |g| - 1
    ensures SameCoeff(h, i, g, j)
  {
  }

  lemma MirrorOf(a: Word)
    ensures IsMirror(Reversed(a), a)
  {
  }

  lemma RemainderMirror(p: Parameters, r0: Word, bits: Word)
    requires p.Valid() && p.reflectInput && |r0| == p.n
    ensures IsMirror(RemainderOf(p, r0, bits), Feed(p.WidePoly(), Reversed(r0), bits))
  {
  }

  /** Two registers that agree up to a shift agree up to the opposite shift in the mirror. */
  lemma BothMirrored(r0: Word, f: Word, g: Word, h: Word, i: int, j: int, k: int, m: int)
    requires |g| == |r0| && IsMirror(f, r0) && IsMirror(h, g) && i + j == |r0| - 1 && k + m == |r0| - 1
    requires SameCoeff(g, j, f, k)
    ensures SameCoeff(h, i, r0, m)
  {
    MirrorAt(h, g, i, j);
    MirrorAt(f, r0, k, m);
    SameCoeffTrans(h, i, g, j, f, k);
    SameCoeffTrans(h, i, f, k, r0, m);
  }

  /** A mirrored register moves its bits down, above the mirrored polynomial. */
  lemma MirroredFeed(poly: Word, r0: Word, f: Word, bits: Word, h: Word, z: nat, i: int, j: int, k: int, m: int)
    requires |r0| == |poly| == |f| > 0 && IsMirror(f, r0) && IsMirror(h, Feed(poly, f, bits)) && LowZero(poly, z) && j < z
    requires i + j == |r0| - 1 && k + m == |r0| - 1 && k == j - |bits|
    ensures SameCoeff(h, i, r0, m)
  {
    LowShifts(poly, f, bits, z, j, k);
    BothMirrored(r0, f, Feed(poly, f, bits), h, i, j, k, m);
  }

  lemma WideHigh(p: Parameters, r0: Word, f: Word, bits: Word, r: Word, i: nat)
    requires p.Valid() && |r0| == |f| == p.n && p.w <= i && IsMirror(f, r0) && IsMirror(r, Feed(p.WidePoly(), f, bits))
    ensures SameCoeff(r, i, r0, i + |bits|)
  {
    WidePolyLow(p);
    MirroredFeed(p.WidePoly(), r0, f, bits, r, p.n - p.w, i, p.n - 1 - i, p.n - 1 - i - |bits|, i + |bits|);
  }

  /** Bit i of the remainder was bit i + |bits| before, from the CRC width on. */
  lemma RemainderHigh(p: Parameters, r0: Word, bits: Word, i: nat)
    requires p.Valid() && p.reflectInput && |r0| == p.n && p.w <= i
    ensures SameCoeff(RemainderOf(p, r0, bits), i, r0, i + |bits|)
  {
    MirrorOf(r0);
    RemainderMirror(p, r0, bits);
    WideHigh(p, r0, Reversed(r0), bits, RemainderOf(p, r0, bits), i);
  }

  /** Whatever lies above the CRC width has been shifted out after n bytes. */
  lemma LongInputFits(p: Parameters, r0: Word)
    requires p.Valid() && p.reflectInput && |r0| == p.n
    ensures Fits(RemainderOf(p, r0, Zeros(8 * p.n)), p.w)
  {
    var r := RemainderOf(p, r0, Zeros(8 * p.n));
    forall i | p.w <= i < p.n ensures !r[i] {
      RemainderHigh(p, r0, Zeros(8 * p.n), i);
      assert Coeff(r, i) == r[i];
    }
  }
}
