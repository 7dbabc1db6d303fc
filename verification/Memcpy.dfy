/**
 Vector moves over flat memory.

 A copy has a span: n bytes at src to n bytes at dst, the two not overlapping.  `Load`
 may read only inside the source span and `Store` may write only inside the destination
 span, so a routine built from them reads and writes nothing else.
 */
module Memcpy {

  datatype Span = Span(dst: nat, src: nat, n: nat) {
    ghost predicate Fits(size: nat) {
      && dst + n <= size && src + n <= size
      && (dst + n <= src || src + n <= dst)
    }
  }

  /** The first k bytes have been copied, and nothing outside the destination has changed. */
  ghost predicate Copied(m: seq<int>, m0: seq<int>, w: Span, k: nat) {
    |m| == |m0| && w.Fits(|m|) && k <= w.n && Moved(m, m0, w, k) && OthersKept(m, m0, w)
  }

  ghost predicate Moved(m: seq<int>, m0: seq<int>, w: Span, k: nat)
    requires |m| == |m0| && w.Fits(|m|) && k <= w.n
  {
    forall j :: w.dst <= j < w.dst + k ==> m[j] == m0[w.src + (j - w.dst)]
  }

  ghost predicate OthersKept(m: seq<int>, m0: seq<int>, w: Span)
    requires |m| == |m0|
  {
    forall j :: 0 <= j < |m| && !(w.dst <= j < w.dst + w.n) ==> m[j] == m0[j]
  }

  function Max(a: nat, b: nat): nat { if a < b then b else a }

  method Load(mem: array<int>, s: nat, len: nat, ghost m0: seq<int>, ghost w: Span, ghost k: nat) returns (reg: seq<int>)
    requires Copied(mem[..], m0, w, k)
    requires w.src <= s && s + len <= w.src + w.n
    ensures reg == m0[s..s + len]
  {
    reg := mem[s..s + len];
    assert forall i :: s <= i < s + len ==> mem[..][i] == m0[i];
  }

  method Store(mem: array<int>, d: nat, reg: seq<int>, ghost m0: seq<int>, ghost w: Span, ghost k: nat)
    requires Copied(mem[..], m0, w, k)
    requires w.dst <= d <= w.dst + k && d + |reg| <= w.dst + w.n
    requires var s := w.src + (d - w.dst); reg == m0[s..s + |reg|]
    modifies mem
    ensures Copied(mem[..], m0, w, Max(k, d - w.dst + |reg|))
  {
    ghost var m := mem[..];
    forall i | 0 <= i < |reg| {
      mem[d + i] := reg[i];
    }
    StoreExtends(m, mem[..], d, reg, m0, w, k);
  }

  lemma StoreExtends(m: seq<int>, m': seq<int>, d: nat, reg: seq<int>, m0: seq<int>, w: Span, k: nat)
    requires Copied(m, m0, w, k) && |m'| == |m|
    requires w.dst <= d <= w.dst + k && d + |reg| <= w.dst + w.n
    requires var s := w.src + (d - w.dst); reg == m0[s..s + |reg|]
    requires forall j :: 0 <= j < |m| ==> m'[j] == if d <= j < d + |reg| then reg[j - d] else m[j]
    ensures Copied(m', m0, w, Max(k, d - w.dst + |reg|))
  {
  }

  /** clib_mov16, clib_mov32 and every other move by one register. */
  method Mov(mem: array<int>, d: nat, s: nat, len: nat, ghost m0: seq<int>, ghost w: Span, ghost k: nat)
    requires Copied(mem[..], m0, w, k)
    requires w.dst <= d <= w.dst + k && d + len <= w.dst + w.n && s == w.src + (d - w.dst)
    modifies mem
    ensures Copied(mem[..], m0, w, Max(k, d - w.dst + len))
  {
    var reg := Load(mem, s, len, m0, w, k);
    Store(mem, d, reg, m0, w, k);
  }

  /** The branch for fewer than sixteen bytes: one move for each bit set in n. */
  method CopyBelow16(mem: array<int>, dst: nat, src: nat, n: nat)
    requires n < 16 && Span(dst, src, n).Fits(mem.Length)
    modifies mem
    ensures Copied(mem[..], old(mem[..]), Span(dst, src, n), n)
  {
    ghost var m0, w := mem[..], Span(dst, src, n);
    var b0, b1, b2, b3 := LowBits(n);
    var done := 0;
    if b0 {
      Mov(mem, dst, src, 1, m0, w, 0);
      done := 1;
    }
    if b1 {
      Mov(mem, dst + done, src + done, 2, m0, w, done);
      done := done + 2;
    }
    if b2 {
      Mov(mem, dst + done, src + done, 4, m0, w, done);
      done := done + 4;
    }
    if b3 {
      Mov(mem, dst + done, src + done, 8, m0, w, done);
    }
  }

  /** n & 1, n & 2, n & 4 and n & 8. */
  method LowBits(n: nat) returns (b0: bool, b1: bool, b2: bool, b3: bool)
    requires n < 16
    ensures n == (if b0 then 1 else 0) + (if b1 then 2 else 0) + (if b2 then 4 else 0) + (if b3 then 8 else 0)
  {
    b0, b1, b2, b3 := n % 2 == 1, n / 2 % 2 == 1, n / 4 % 2 == 1, n / 8 % 2 == 1;
  }

  /** What a copy means to its caller: the source bytes, and nothing else touched. */
  lemma CopiedAll(m: seq<int>, m0: seq<int>, w: Span)
    requires Copied(m, m0, w, w.n)
    ensures m == m0[..w.dst] + m0[w.src..w.src + w.n] + m0[w.dst + w.n..]
  {
  }
}
