/**
 The register is the remainder of polynomial division over GF(2).

 A polynomial is the sequence of its coefficients, index i being the coefficient of x^i;
 trailing zeros make no difference.
 */
module CrcPoly {
  import opened Bits
  import opened CrcSpec

  type Poly = seq<bool>

  predicate Coeff(p: Poly, i: int) { 0 <= i < |p| && p[i] }

  ghost predicate Same(p: Poly, q: Poly) {
    forall i :: Coeff(p, i) == Coeff(q, i)
  }

  function Add(p: Poly, q: Poly): (s: Poly)
    ensures forall i {:trigger Coeff(s, i)} :: Coeff(s, i) == (Coeff(p, i) != Coeff(q, i))
  {
    seq(if |p| < |q| then |q| else |p|, i => Coeff(p, i) != Coeff(q, i))
  }

  function TimesX(p: Poly, k: nat): (s: Poly)
    ensures forall i {:trigger Coeff(s, i)} :: Coeff(s, i) == Coeff(p, i - k)
  {
    Zeros(k) + p
  }

  function Mul(q: Poly, g: Poly): Poly {
    if |q| == 0 then [] else Add(if q[0] then g else [], TimesX(Mul(q[1..], g), 1))
  }

  /** x^w + polynomial, w being the width of the CRC. */
  function Generator(poly: Word): Poly { poly + [true] }

  /** init * x^n + M * x^w for an n-bit message M, first bit highest. */
  function Dividend(w: nat, init: Word, message: Word): Poly {
    Add(TimesX(init, |message|), TimesX(Reversed(message), w))
  }

  lemma DividendExtend(w: nat, init: Word, message: Word, b: bool, i: int)
    ensures Coeff(Dividend(w, init, message + [b]), i) ==
            (Coeff(Dividend(w, init, message), i - 1) != (i == w && b))
  {
    var m := message + [b];
    assert Reversed(m) == [b] + Reversed(message);
  }

  lemma StepCoeff(poly: Word, r: Word, b: bool, i: int)
    requires |r| == |poly| > 0
    ensures var c := r[|r| - 1] != b;
            Coeff(StepBit(poly, r, b), i) ==
            ((Coeff(r, i - 1) != (i == |r| && b)) != (c && Coeff(Generator(poly), i)))
  {
    if 0 <= i < |r| {
      StepBitAt(poly, r, b, i);
    }
  }

  /** The quotient, one bit per step. */
  function Quotient(poly: Word, init: Word, message: Word): Poly
    requires |init| == |poly| > 0
  {
    if |message| == 0 then []
    else
      var n := |message| - 1;
      var r := Feed(poly, init, message[..n]);
      [r[|r| - 1] != message[n]] + Quotient(poly, init, message[..n])
  }

  lemma QuotientExtend(q: Poly, c: bool, g: Poly, i: int)
    ensures Coeff(Mul([c] + q, g), i) == ((c && Coeff(g, i)) != Coeff(Mul(q, g), i - 1))
  {
    assert ([c] + q)[1..] == q;
  }

  /** Division: init * x^n + M * x^w == quotient * (x^w + poly) + register. */
  lemma {:induction false} RegisterDivides(poly: Word, init: Word, message: Word)
    requires |init| == |poly| > 0
    ensures Same(Dividend(|poly|, init, message),
                 Add(Mul(Quotient(poly, init, message), Generator(poly)), Feed(poly, init, message)))
    decreases |message|
  {
    if |message| == 0 {
    } else {
      var n := |message| - 1;
      var m, b := message[..n], message[n];
      assert message == m + [b];
      var r, g := Feed(poly, init, m), Generator(poly);
      var q := Quotient(poly, init, m);
      var c := r[|r| - 1] != b;
      RegisterDivides(poly, init, m);
      FeedAppend(poly, init, m, [b]);
      assert Feed(poly, init, message) == StepBit(poly, r, b);
      forall i
        ensures Coeff(Dividend(|poly|, init, message), i) ==
                Coeff(Add(Mul([c] + q, g), StepBit(poly, r, b)), i)
      {
        DividendExtend(|poly|, init, m, b, i);
        StepCoeff(poly, r, b, i);
        QuotientExtend(q, c, g, i);
        assert Coeff(Dividend(|poly|, init, m), i - 1) == Coeff(Add(Mul(q, g), r), i - 1);
      }
    }
  }

  // ----- the remainder is unique

  lemma {:induction false} MulAdd(p: Poly, q: Poly, g: Poly, i: int)
    ensures Coeff(Mul(Add(p, q), g), i) == (Coeff(Mul(p, g), i) != Coeff(Mul(q, g), i))
    decreases |p| + |q|
  {
    if |p| == 0 || |q| == 0 {
      assert Add(p, q) == if |p| == 0 then q else p;
    } else {
      assert Add(p, q)[1..] == Add(p[1..], q[1..]);
      MulAdd(p[1..], q[1..], g, i - 1);
    }
  }

  /** A multiple of the generator with nothing at or above x^w is zero. */
  lemma {:induction false} SmallMultipleIsZero(poly: Word, q: Poly, i: int)
    requires forall j :: |poly| <= j ==> !Coeff(Mul(q, Generator(poly)), j)
    ensures !Coeff(Mul(q, Generator(poly)), i)
    decreases |q|
  {
    if |q| > 0 {
      var g := Generator(poly);
      forall j | |poly| <= j
        ensures !Coeff(Mul(q[1..], g), j)
      {
        assert !Coeff(Mul(q, g), j + 1);
      }
      SmallMultipleIsZero(poly, q[1..], i - 1);
      SmallMultipleIsZero(poly, q[1..], |poly| - 1);
      assert !Coeff(Mul(q, g), |poly|);
    }
  }

  /** Whatever quotient is tried, a remainder shorter than the generator is the register. */
  lemma RemainderIsRegister(poly: Word, init: Word, message: Word, q: Poly, rem: Word)
    requires |init| == |poly| == |rem| > 0
    requires Same(Dividend(|poly|, init, message), Add(Mul(q, Generator(poly)), rem))
    ensures rem == Feed(poly, init, message)
  {
    var g := Generator(poly);
    var r, q' := Feed(poly, init, message), Quotient(poly, init, message);
    RegisterDivides(poly, init, message);
    forall i
      ensures Coeff(Mul(Add(q, q'), g), i) == (Coeff(rem, i) != Coeff(r, i))
    {
      MulAdd(q, q', g, i);
      assert Coeff(Dividend(|poly|, init, message), i) == Coeff(Add(Mul(q, g), rem), i);
    }
    forall i | 0 <= i < |rem|
      ensures rem[i] == r[i]
    {
      SmallMultipleIsZero(poly, Add(q, q'), i);
      assert Coeff(rem, i) == Coeff(r, i);
    }
  }
}
