/** Powers of two and the remainder facts that free-running indices rely on. */
module Arith {
  function Min(a: int, b: int): int { if a <= b then a else b }

  function Pow2(k: nat): (p: nat)
    ensures p >= 1
  {
    if k == 0 then 1 else 2 * Pow2(k - 1)
  }

  lemma {:induction false} Pow2Add(j: nat, k: nat)
    ensures Pow2(j + k) == Pow2(j) * Pow2(k)
  {
    if j > 0 {
      Pow2Add(j - 1, k);
      assert Pow2(j + k) == 2 * Pow2(j - 1 + k);
    }
  }

  lemma {:induction false} Pow2Monotone(j: nat, k: nat)
    requires j <= k
    ensures Pow2(j) <= Pow2(k)
  {
    if j < k {
      Pow2Monotone(j, k - 1);
    }
  }

  lemma MulMonotone(a: nat, b: nat, m: nat)
    requires a <= b
    ensures a * m <= b * m
  {
  }

  lemma MulBounds(k: int, m: int)
    requires 0 < m
    ensures k >= 1 ==> k * m >= m
    ensures k <= -1 ==> k * m <= -m
    ensures k == 0 ==> k * m == 0
  {
  }

  /** Quotient and remainder are determined by the division equation. */
  lemma RemainderUnique(x: int, m: int, q: int, r: int)
    requires 0 < m && 0 <= r < m && x == q * m + r
    ensures x % m == r && x / m == q
  {
    var q' := x / m;
    var r' := x % m;
    assert (q - q') * m == r' - r;
    MulBounds(q - q', m);
  }

  /** Reducing modulo a multiple first does not change the remainder. */
  lemma RemainderOfRemainder(x: nat, a: nat, b: nat)
    requires a > 0 && b > 0
    ensures a * b > 0
    ensures (x % (a * b)) % a == x % a
  {
    assert a * b > 0;
    var y := x % (a * b);
    var k := x / (a * b);
    assert x == (a * b) * k + y;
    assert (a * b) * k == (b * k) * a;
    RemainderUnique(x, a, b * k + y / a, y % a) by {
      assert y == (y / a) * a + y % a;
      assert (b * k + y / a) * a == (b * k) * a + (y / a) * a;
    }
  }

  /** Within a window of m consecutive integers, remainders modulo m are distinct. */
  lemma RemainderDistinct(x: int, y: int, m: int)
    requires 0 < m && 0 < y - x < m
    ensures x % m != y % m
  {
    var k := y / m - x / m;
    assert y - x == k * m + (y % m - x % m);
    MulBounds(k, m);
  }

  /** Moving by a whole period does not change the remainder. */
  lemma RemainderShift(x: int, m: int)
    requires 0 < m
    ensures (x + m) % m == x % m
  {
    RemainderUnique(x + m, m, x / m + 1, x % m) by {
      assert (x / m + 1) * m == (x / m) * m + m;
    }
  }

  lemma MultipleRemainder(k: nat, m: nat)
    requires m > 0
    ensures (k * m) % m == 0 && (k * m) / m == k
  {
    RemainderUnique(k * m, m, k, 0);
  }

  /** `x & y`, bit by bit. */
  function And(x: nat, y: nat): (r: nat)
    ensures r <= x && r <= y
  {
    if x == 0 || y == 0 then 0 else (if x % 2 == 1 && y % 2 == 1 then 1 else 0) + 2 * And(x / 2, y / 2)
  }

  predicate IsPow2(b: nat) { b == 1 || (b > 0 && b % 2 == 0 && IsPow2(b / 2)) }

  lemma {:induction false} Pow2IsPow2(k: nat)
    ensures IsPow2(Pow2(k))
  {
    if k > 0 {
      Pow2IsPow2(k - 1);
    }
  }

  lemma {:induction false} AndSelf(x: nat)
    ensures And(x, x) == x
  {
    if x > 0 {
      AndSelf(x / 2);
    }
  }

  /** A number shares no bit with its predecessor exactly when it is a power of two. */
  lemma {:induction false} AndPredecessor(b: nat)
    requires b > 0
    ensures And(b, b - 1) == 0 <==> IsPow2(b)
  {
    if b % 2 == 0 {
      AndEven(b / 2);
      AndPredecessor(b / 2);
    } else if b > 1 {
      AndOdd(b / 2);
    }
  }

  lemma AndEven(h: nat)
    requires h > 0
    ensures And(2 * h, 2 * h - 1) == 2 * And(h, h - 1)
  {
  }

  lemma AndOdd(h: nat)
    ensures And(2 * h + 1, 2 * h) == 2 * h
  {
    AndSelf(h);
    if h > 0 {
      Halves(h);
      assert And(2 * h + 1, 2 * h) == 2 * And((2 * h + 1) / 2, (2 * h) / 2);
    }
  }

  lemma Halves(h: nat)
    ensures (2 * h) / 2 == h && (2 * h) % 2 == 0 && (2 * h + 1) / 2 == h && (2 * h + 1) % 2 == 1
  {
  }

  /** For a power of two the bitwise mask is the remainder. */
  lemma {:induction false} AndIsRemainder(x: nat, b: nat)
    requires IsPow2(b)
    ensures And(x, b - 1) == x % b
  {
    if b > 1 {
      AndIsRemainder(x / 2, b / 2);
      AndLowBit(x, b / 2);
      RemainderLowBit(x, b / 2);
    }
  }

  lemma AndLowBit(x: nat, h: nat)
    requires h > 0
    ensures And(x, 2 * h - 1) == 2 * And(x / 2, h - 1) + x % 2
  {
    assert (2 * h - 1) / 2 == h - 1 && (2 * h - 1) % 2 == 1;
  }

  lemma RemainderLowBit(x: nat, h: nat)
    requires h > 0
    ensures x % (2 * h) == 2 * ((x / 2) % h) + x % 2
  {
    var q, r := (x / 2) / h, (x / 2) % h;
    assert x / 2 == q * h + r;
    assert q * (2 * h) == 2 * (q * h);
    RemainderUnique(x, 2 * h, q, 2 * r + x % 2);
  }

  /** `x & (size - 1)` for a power of two, by repeated subtraction. */
  function Mask(x: nat, size: nat): (r: nat)
    requires size > 0
    ensures r < size && r <= x
    ensures x < size ==> r == x
  {
    if x < size then x else Mask(x - size, size)
  }

  lemma {:induction false} MaskIsRemainder(x: nat, size: nat)
    requires size > 0
    ensures Mask(x, size) == x % size
  {
    if x >= size {
      MaskIsRemainder(x - size, size);
      RemainderShift(x - size, size);
    }
  }

  /** What the masks of the ring code select. */
  lemma MaskIsBitwise(x: nat, k: nat)
    ensures And(x, Pow2(k) - 1) == Mask(x, Pow2(k))
  {
    Pow2IsPow2(k);
    AndIsRemainder(x, Pow2(k));
    MaskIsRemainder(x, Pow2(k));
  }

  type u16 = x: int | 0 <= x < 65536

  /** Truncation to 16 bits. */
  function Wrap(x: int): (r: u16)
    ensures 0 <= x < 65536 ==> r == x
    decreases x < 0, if x < 0 then -x else x
  {
    if x < 0 then Wrap(x + 65536) else if x < 65536 then x else Wrap(x - 65536)
  }

  lemma {:induction false} WrapIsRemainder(x: int)
    ensures Wrap(x) == x % 65536
    decreases x < 0, if x < 0 then -x else x
  {
    if x < 0 {
      WrapIsRemainder(x + 65536);
    } else if x >= 65536 {
      WrapIsRemainder(x - 65536);
    }
  }

  lemma {:induction false} WrapPeriod(x: int, k: nat)
    ensures Wrap(x + 65536 * k) == Wrap(x)
    ensures Wrap(x - 65536 * k) == Wrap(x)
  {
    if k > 0 {
      WrapPeriod(x, k - 1);
      WrapOnce(x + 65536 * (k - 1));
      WrapOnce(x - 65536 * k);
    }
  }

  lemma WrapOnce(x: int)
    ensures Wrap(x + 65536) == Wrap(x)
  {
  }

  lemma WrapTurns(x: int) returns (k: int)
    ensures x == Wrap(x) + 65536 * k
  {
    WrapIsRemainder(x);
    k := x / 65536;
  }

  /** Truncating early makes no difference to a sum or a difference that is truncated later. */
  lemma WrapAdd(x: int, y: int)
    ensures Wrap(Wrap(x) + y) == Wrap(x + y)
    ensures Wrap(y - Wrap(x)) == Wrap(y - x)
  {
    var k := WrapTurns(x);
    if k >= 0 {
      WrapPeriod(x + y, k);
      WrapPeriod(y - x, k);
    } else {
      WrapPeriod(x + y, -k);
      WrapPeriod(y - x, -k);
    }
  }

  lemma WrapDiff(x: int, y: int)
    ensures Wrap(Wrap(x) - Wrap(y)) == Wrap(x - y)
  {
    WrapAdd(x, 0 - Wrap(y));
    WrapAdd(y, x);
  }

  /** y + Wrap(x) - Wrap(z), in the order the ring code adds them up. */
  lemma WrapMix(x: int, y: int, z: int)
    ensures Wrap(y - Wrap(z) + Wrap(x)) == Wrap(y - z + x)
  {
    WrapAdd(z, y + Wrap(x));
    WrapAdd(x, y - z);
    assert y - Wrap(z) + Wrap(x) == y + Wrap(x) - Wrap(z);
    assert y + Wrap(x) - z == Wrap(x) + (y - z);
  }

  lemma Pow2Complement(k: nat)
    requires k <= 16
    ensures Pow2(k) * Pow2(16 - k) == 65536
  {
    Pow2Add(k, 16 - k);
    Pow2Sixteen();
  }

  lemma Pow2Sixteen()
    ensures Pow2(14) == 16384 && Pow2(16) == 65536
  {
    assert Pow2(8) == 256;
    assert Pow2(14) == 16384;
  }

  /** Masking a 16-bit index gives the same slot as masking the unbounded counter. */
  lemma MaskOfWrap(i: nat, k: nat)
    requires k <= 16
    ensures Mask(Wrap(i), Pow2(k)) == Mask(i, Pow2(k))
  {
    Pow2Complement(k);
    RemainderOfRemainder(i, Pow2(k), Pow2(16 - k));
    MaskIsRemainder(i, Pow2(k));
    MaskIsRemainder(Wrap(i), Pow2(k));
    WrapIsRemainder(i);
  }
}
