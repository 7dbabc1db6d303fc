/**
 The CRC register as mathematics: one message bit at a time through a register that is
 exactly as wide as the CRC.
 */
module CrcSpec {
  import opened Bits

  /** One message bit: shift left, and subtract the polynomial when the bit that falls out differs from b. */
  function StepBit(poly: Word, r: Word, b: bool): (r': Word)
    requires |r| == |poly| > 0
    ensures |r'| == |r|
  {
    var shifted := [false] + r[..|r| - 1];
    if r[|r| - 1] != b then Xor(shifted, poly) else shifted
  }

  /** A message, first bit first. */
  function Feed(poly: Word, r: Word, bits: Word): (r': Word)
    requires |r| == |poly| > 0
    ensures |r'| == |r|
    decreases |bits|
  {
    if |bits| == 0 then r else Feed(poly, StepBit(poly, r, bits[0]), bits[1..])
  }

  lemma {:induction false} FeedAppend(poly: Word, r: Word, a: Word, b: Word)
    requires |r| == |poly| > 0
    ensures Feed(poly, r, a + b) == Feed(poly, Feed(poly, r, a), b)
    decreases |a|
  {
    if |a| == 0 {
      assert a + b == b;
    } else {
      assert (a + b)[1..] == a[1..] + b;
      FeedAppend(poly, StepBit(poly, r, a[0]), a[1..], b);
    }
  }

  // ----- feeding is linear

  lemma StepLinear(poly: Word, r: Word, s: Word, b: bool, c: bool)
    requires |r| == |s| == |poly| > 0
    ensures StepBit(poly, Xor(r, s), b != c) == Xor(StepBit(poly, r, b), StepBit(poly, s, c))
  {
  }

  /** A step, bit by bit. */
  lemma StepBitAt(poly: Word, r: Word, b: bool, i: nat)
    requires |r| == |poly| > 0 && i < |r|
    ensures StepBit(poly, r, b)[i] == ((i > 0 && r[i - 1]) != (r[|r| - 1] != b && poly[i]))
  {
    var shifted := [false] + r[..|r| - 1];
    assert shifted[i] == (i > 0 && r[i - 1]);
  }

  lemma {:induction false} FeedLinear(poly: Word, r: Word, s: Word, a: Word, b: Word)
    requires |r| == |s| == |poly| > 0 && |a| == |b|
    ensures Feed(poly, Xor(r, s), Xor(a, b)) == Xor(Feed(poly, r, a), Feed(poly, s, b))
    decreases |a|
  {
    if |a| > 0 {
      assert Xor(a, b)[1..] == Xor(a[1..], b[1..]);
      StepLinear(poly, r, s, a[0], b[0]);
      FeedLinear(poly, StepBit(poly, r, a[0]), StepBit(poly, s, b[0]), a[1..], b[1..]);
    }
  }

  // ----- xoring a whole group of bits in at the top, then shifting

  /** Bits at the top of a register, first bit highest. */
  function AtTop(w: nat, bits: Word): (r: Word)
    requires |bits| <= w
    ensures |r| == w
    ensures forall i :: 0 <= i < w ==> r[i] == (i >= w - |bits| && bits[w - 1 - i])
  {
    Zeros(w - |bits|) + Reversed(bits)
  }

  /** Xoring k bits in at the top and feeding k zeros is feeding the k bits. */
  lemma {:induction false} TopThenShift(poly: Word, r: Word, bits: Word)
    requires |r| == |poly| > 0 && |bits| <= |r|
    ensures Feed(poly, Xor(r, AtTop(|r|, bits)), Zeros(|bits|)) == Feed(poly, r, bits)
    decreases |bits|
  {
    if |bits| == 0 {
      assert Xor(r, AtTop(|r|, bits)) == r;
    } else {
      TopStep(poly, r, bits);
      assert Zeros(|bits|)[1..] == Zeros(|bits| - 1);
      TopThenShift(poly, StepBit(poly, r, bits[0]), bits[1..]);
    }
  }

  lemma TopStep(poly: Word, r: Word, bits: Word)
    requires |r| == |poly| > 0 && 0 < |bits| <= |r|
    ensures StepBit(poly, Xor(r, AtTop(|r|, bits)), false) ==
            Xor(StepBit(poly, r, bits[0]), AtTop(|r|, bits[1..]))
  {
    var t := AtTop(|r|, bits);
    AtTopShift(|r|, bits);
    StepLinear(poly, r, t, bits[0], bits[0]);
    StepIsShift(poly, t, bits[0]);
  }

  lemma AtTopShift(w: nat, bits: Word)
    requires 0 < |bits| <= w
    ensures AtTop(w, bits)[w - 1] == bits[0]
    ensures Shl(AtTop(w, bits), 1) == AtTop(w, bits[1..])
  {
  }

  lemma StepIsShift(poly: Word, r: Word, b: bool)
    requires |r| == |poly| > 0
    ensures StepBit(poly, r, b) == if r[|r| - 1] != b then Xor(Shl(r, 1), poly) else Shl(r, 1)
  {
    assert [false] + r[..|r| - 1] == Shl(r, 1);
  }

  /** While the top bits are zero, feeding zeros only shifts. */
  lemma {:induction false} ShiftOnly(poly: Word, r: Word, k: nat)
    requires |r| == |poly| > 0 && k <= |r|
    requires forall i :: |r| - k <= i < |r| ==> !r[i]
    ensures Feed(poly, r, Zeros(k)) == Shl(r, k)
    decreases k
  {
    if k > 0 {
      StepIsShift(poly, r, false);
      assert Zeros(k)[1..] == Zeros(k - 1);
      ShiftOnly(poly, Shl(r, 1), k - 1);
      ShlShl(r, 1, k - 1);
    } else {
      assert Shl(r, 0) == r;
    }
  }

  /** A register is its top k bits plus the rest. */
  lemma SplitTop(r: Word, k: nat)
    requires k <= |r|
    ensures r == Xor(AtTop(|r|, Reversed(r[|r| - k..])), KeepLow(r, |r| - k))
    ensures Shl(KeepLow(r, |r| - k), k) == Shl(r, k)
  {
    var high, low := AtTop(|r|, Reversed(r[|r| - k..])), KeepLow(r, |r| - k);
    forall i | 0 <= i < |r| ensures r[i] == Xor(high, low)[i] {
      TopAt(r, k, i);
    }
    forall i | 0 <= i < |r| ensures Shl(low, k)[i] == Shl(r, k)[i] {
    }
  }

  lemma TopAt(r: Word, k: nat, i: nat)
    requires k <= |r| && i < |r|
    ensures AtTop(|r|, Reversed(r[|r| - k..]))[i] == (i >= |r| - k && r[i])
  {
    var top := Reversed(r[|r| - k..]);
    if i >= |r| - k {
      assert top[|r| - 1 - i] == r[|r| - k..][i - (|r| - k)];
    }
  }

  lemma AtTopXor(w: nat, a: Word, b: Word)
    requires |a| == |b| <= w
    ensures Xor(AtTop(w, a), AtTop(w, b)) == Xor(Zeros(w), AtTop(w, Xor(a, b)))
  {
  }

  /** The byte-at-a-time identity: what leaves the top selects the entry, the rest only moves up. */
  lemma TableStep(poly: Word, r: Word, bits: Word)
    requires |r| == |poly| > 0 && |bits| <= |r|
    ensures var top := Reversed(r[|r| - |bits|..]);
            Feed(poly, r, bits) == Xor(Shl(r, |bits|), Feed(poly, Zeros(|r|), Xor(top, bits)))
  {
    var w, k := |r|, |bits|;
    var top := Reversed(r[w - k..]);
    FeedSplit(poly, r, bits);
    FeedFromTop(poly, top, bits);
    XorCommutes(Feed(poly, Zeros(w), Xor(top, bits)), Shl(r, k));
  }

  lemma XorZeros(a: Word)
    ensures Xor(a, Zeros(|a|)) == a
  {
  }

  /** The top bits meet the message; the rest of the register is only shifted. */
  lemma FeedSplit(poly: Word, r: Word, bits: Word)
    requires |r| == |poly| > 0 && |bits| <= |r|
    ensures Feed(poly, r, bits) ==
            Xor(Feed(poly, AtTop(|r|, Reversed(r[|r| - |bits|..])), bits), Shl(r, |bits|))
  {
    var w, k := |r|, |bits|;
    var high, low := AtTop(w, Reversed(r[w - k..])), KeepLow(r, w - k);
    SplitTop(r, k);
    LowFed(poly, r, low, k);
    FeedParts(poly, r, high, low, bits, Shl(r, k));
  }

  lemma LowFed(poly: Word, r: Word, low: Word, k: nat)
    requires |r| == |poly| > 0 && k <= |r| && low == KeepLow(r, |r| - k)
    ensures Feed(poly, low, Zeros(k)) == Shl(r, k)
  {
    SplitTop(r, k);
    ShiftOnly(poly, low, k);
  }

  /** Only one of two parts of a register need meet the message. */
  lemma FeedParts(poly: Word, r: Word, high: Word, low: Word, bits: Word, s: Word)
    requires |r| == |high| == |low| == |poly| > 0 && r == Xor(high, low) && s == Feed(poly, low, Zeros(|bits|))
    ensures Feed(poly, r, bits) == Xor(Feed(poly, high, bits), s)
  {
    XorZeros(bits);
    FeedLinear(poly, high, low, bits, Zeros(|bits|));
  }

  lemma FeedFromTop(poly: Word, top: Word, bits: Word)
    requires 0 < |poly| && |top| == |bits| <= |poly|
    ensures Feed(poly, AtTop(|poly|, top), bits) == Feed(poly, Zeros(|poly|), Xor(top, bits))
  {
    var w := |poly|;
    TopThenShift(poly, AtTop(w, top), bits);
    TopThenShift(poly, Zeros(w), Xor(top, bits));
    AtTopXor(w, top, bits);
  }

  lemma XorCommutes(a: Word, b: Word)
    requires |a| == |b|
    ensures Xor(a, b) == Xor(b, a)
  {
  }

  // ----- a narrow register inside a wider one

  lemma WidenStep(poly: Word, r: Word, pad: nat, b: bool)
    requires |r| == |poly| > 0
    ensures StepBit(Zeros(pad) + poly, Zeros(pad) + r, b) == Zeros(pad) + StepBit(poly, r, b)
  {
    StepIsShift(Zeros(pad) + poly, Zeros(pad) + r, b);
    StepIsShift(poly, r, b);
    PadShl(pad, r);
    PadXor(pad, Shl(r, 1), poly);
  }

  /** Polynomial and register moved up by `pad` bits: the low bits stay zero and nothing else changes. */
  lemma {:induction false} Widen(poly: Word, r: Word, pad: nat, bits: Word)
    requires |r| == |poly| > 0
    ensures Feed(Zeros(pad) + poly, Zeros(pad) + r, bits) == Zeros(pad) + Feed(poly, r, bits)
    decreases |bits|
  {
    if |bits| > 0 {
      WidenStep(poly, r, pad, bits[0]);
      Widen(poly, StepBit(poly, r, bits[0]), pad, bits[1..]);
    }
  }

  // ----- residue

  /** A message followed by its own register, highest bit first, leaves zero. */
  lemma {:induction false} SelfFeedIsZero(poly: Word, r: Word, k: nat)
    requires |r| == |poly| > 0 && k <= |r|
    ensures Feed(poly, r, Reversed(r)[..k]) == Shl(r, k)
    decreases k
  {
    if k > 0 {
      var bits := Reversed(r)[..k];
      StepIsShift(poly, r, bits[0]);
      ReversedShift(r, k);
      SelfFeedIsZero(poly, Shl(r, 1), k - 1);
      ShlShl(r, 1, k - 1);
    } else {
      assert Shl(r, 0) == r;
    }
  }

  lemma ReversedShift(r: Word, k: nat)
    requires 0 < k <= |r|
    ensures Reversed(r)[..k][1..] == Reversed(Shl(r, 1))[..k - 1]
  {
  }

  lemma ResidueZero(poly: Word, r: Word, message: Word)
    requires |r| == |poly| > 0
    ensures Feed(poly, r, message + Reversed(Feed(poly, r, message))) == Zeros(|r|)
  {
    var c := Feed(poly, r, message);
    FeedAppend(poly, r, message, Reversed(c));
    SelfFeedIsZero(poly, c, |c|);
    assert Reversed(c)[..|c|] == Reversed(c);
  }
}
