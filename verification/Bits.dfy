/** Machine words as bit sequences; index i is the bit of weight 2^i. */
module Bits {

  type Word = seq<bool>

  function Zeros(n: nat): (z: Word)
    ensures |z| == n && forall i :: 0 <= i < n ==> !z[i]
  {
    seq(n, i => false)
  }

  function Xor(a: Word, b: Word): (r: Word)
    requires |a| == |b|
    ensures |r| == |a| && forall i :: 0 <= i < |r| ==> r[i] == (a[i] != b[i])
  {
    seq(|a|, i requires 0 <= i < |a| => a[i] != b[i])
  }

  /** `a << k`, truncated to the width of a. */
  function Shl(a: Word, k: nat): (r: Word)
    requires k <= |a|
    ensures |r| == |a|
    ensures forall i :: 0 <= i < |r| ==> r[i] == (i >= k && a[i - k])
  {
    Zeros(k) + a[..|a| - k]
  }

  /** `a >> k`. */
  function Shr(a: Word, k: nat): (r: Word)
    requires k <= |a|
    ensures |r| == |a|
    ensures forall i :: 0 <= i < |r| ==> r[i] == (i + k < |a| && a[i + k])
  {
    a[k..] + Zeros(k)
  }

  /** `a & BIT_MASK`, the mask having its low w bits set. */
  function KeepLow(a: Word, w: nat): (r: Word)
    requires w <= |a|
    ensures |r| == |a| && forall i :: 0 <= i < |r| ==> r[i] == (i < w && a[i])
  {
    a[..w] + Zeros(|a| - w)
  }

  /** Zero extension, or truncation when n is smaller. */
  function Resize(a: Word, n: nat): (r: Word)
    ensures |r| == n && forall i :: 0 <= i < n ==> r[i] == (i < |a| && a[i])
  {
    if n <= |a| then a[..n] else a + Zeros(n - |a|)
  }

  function Reversed(a: Word): (r: Word)
    ensures |r| == |a| && forall i :: 0 <= i < |r| ==> r[i] == a[|a| - 1 - i]
  {
    seq(|a|, i requires 0 <= i < |a| => a[|a| - 1 - i])
  }

  /** No bit is set at position w or above. */
  predicate Fits(a: Word, w: nat) {
    forall i :: w <= i < |a| ==> !a[i]
  }

  function Value(a: Word): nat {
    if |a| == 0 then 0 else (if a[0] then 1 else 0) + 2 * Value(a[1..])
  }

  /** The low k bits of n. */
  function BitsOf(n: nat, k: nat): (r: Word)
    ensures |r| == k
  {
    if k == 0 then [] else [n % 2 == 1] + BitsOf(n / 2, k - 1)
  }

  lemma {:induction false} BitsOfValue(a: Word)
    ensures BitsOf(Value(a), |a|) == a
  {
    if |a| > 0 {
      BitsOfValue(a[1..]);
      assert a == [a[0]] + a[1..];
    }
  }

  lemma {:induction false} ValueBound(a: Word, bound: nat)
    requires |a| <= 8 && bound == [1, 2, 4, 8, 16, 32, 64, 128, 256][|a|]
    ensures Value(a) < bound
  {
    if |a| > 0 {
      ValueBound(a[1..], [1, 2, 4, 8, 16, 32, 64, 128, 256][|a| - 1]);
    }
  }

  lemma ShlShl(a: Word, j: nat, k: nat)
    requires j + k <= |a|
    ensures Shl(Shl(a, j), k) == Shl(a, j + k)
  {
  }

  lemma PadXor(pad: nat, a: Word, b: Word)
    requires |a| == |b|
    ensures Xor(Zeros(pad) + a, Zeros(pad) + b) == Zeros(pad) + Xor(a, b)
  {
  }

  lemma PadShl(pad: nat, a: Word)
    requires 0 < |a|
    ensures Shl(Zeros(pad) + a, 1) == Zeros(pad) + Shl(a, 1)
  {
  }

  lemma ReversedTwice(a: Word)
    ensures Reversed(Reversed(a)) == a
  {
  }
}
