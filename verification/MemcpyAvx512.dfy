/** clib_memcpy_fast with 64-byte registers. */
module MemcpyAvx512 {
  import opened Memcpy

  method Mov128(mem: array<int>, d: nat, s: nat, ghost m0: seq<int>, ghost w: Span, ghost k: nat)
    requires Copied(mem[..], m0, w, k)
    requires w.dst <= d <= w.dst + k && d + 128 <= w.dst + w.n && s == w.src + (d - w.dst)
    modifies mem
    ensures Copied(mem[..], m0, w, Max(k, d - w.dst + 128))
  {
    Mov(mem, d, s, 64, m0, w, k);
    Mov(mem, d + 64, s + 64, 64, m0, w, Max(k, d - w.dst + 64));
  }

  method Mov256(mem: array<int>, d: nat, s: nat, ghost m0: seq<int>, ghost w: Span, ghost k: nat)
    requires Copied(mem[..], m0, w, k)
    requires w.dst <= d <= w.dst + k && d + 256 <= w.dst + w.n && s == w.src + (d - w.dst)
    modifies mem
    ensures Copied(mem[..], m0, w, Max(k, d - w.dst + 256))
  {
    Mov128(mem, d, s, m0, w, k);
    Mov128(mem, d + 128, s + 128, m0, w, Max(k, d - w.dst + 128));
  }

  /** clib_mov128blocks. */
  method Mov128Blocks(mem: array<int>, dst: nat, src: nat, count: nat, ghost m0: seq<int>, ghost w: Span, ghost k: nat)
    requires Copied(mem[..], m0, w, k)
    requires w.dst <= dst <= w.dst + k && dst + count <= w.dst + w.n && src == w.src + (dst - w.dst)
    modifies mem
    ensures Copied(mem[..], m0, w, Max(k, dst - w.dst + (count - count % 128)))
  {
    var d, s, n := dst, src, count;
    ghost var done := k;
    while n >= 128
      invariant 0 <= n <= count && d + n == dst + count && s == w.src + (d - w.dst)
      invariant n % 128 == count % 128 && w.dst <= d
      invariant done == Max(k, d - w.dst)
      invariant Copied(mem[..], m0, w, done)
    {
      Block128(mem, d, s, m0, w, done);
      done := Max(done, d - w.dst + 128);
      n, s, d := n - 128, s + 128, d + 128;
    }
  }

  /** The body of the block loop: two loads, then two stores. */
  method Block128(mem: array<int>, d: nat, s: nat, ghost m0: seq<int>, ghost w: Span, ghost k: nat)
    requires Copied(mem[..], m0, w, k)
    requires w.dst <= d <= w.dst + k && d + 128 <= w.dst + w.n && s == w.src + (d - w.dst)
    modifies mem
    ensures Copied(mem[..], m0, w, Max(k, d - w.dst + 128))
  {
    var zmm0 := Load(mem, s, 64, m0, w, k);
    var zmm1 := Load(mem, s + 64, 64, m0, w, k);
    ghost var at := d - w.dst;
    Store(mem, d, zmm0, m0, w, k);
    Store(mem, d + 64, zmm1, m0, w, Max(k, at + 64));
  }

  /** clib_mov512blocks. */
  method Mov512Blocks(mem: array<int>, dst: nat, src: nat, count: nat, ghost m0: seq<int>, ghost w: Span, ghost k: nat)
    requires Copied(mem[..], m0, w, k)
    requires w.dst <= dst <= w.dst + k && dst + count <= w.dst + w.n && src == w.src + (dst - w.dst)
    modifies mem
    ensures Copied(mem[..], m0, w, Max(k, dst - w.dst + (count - count % 512)))
  {
    var d, s, n := dst, src, count;
    ghost var done := k;
    while n >= 512
      invariant 0 <= n <= count && d + n == dst + count && s == w.src + (d - w.dst)
      invariant n % 512 == count % 512 && w.dst <= d
      invariant done == Max(k, d - w.dst)
      invariant Copied(mem[..], m0, w, done)
    {
      Block512(mem, d, s, m0, w, done);
      done := Max(done, d - w.dst + 512);
      n, s, d := n - 512, s + 512, d + 512;
    }
  }

  /** The body of the block loop: eight loads, then eight stores; the registers are the elements of zmm. */
  method Block512(mem: array<int>, d: nat, s: nat, ghost m0: seq<int>, ghost w: Span, ghost k: nat)
    requires Copied(mem[..], m0, w, k)
    requires w.dst <= d <= w.dst + k && d + 512 <= w.dst + w.n && s == w.src + (d - w.dst)
    modifies mem
    ensures Copied(mem[..], m0, w, Max(k, d - w.dst + 512))
  {
    var zmm: seq<seq<int>> := [];
    for r := 0 to 8
      invariant |zmm| == r && Copied(mem[..], m0, w, k)
      invariant forall q :: 0 <= q < r ==> zmm[q] == m0[s + 64 * q..s + 64 * q + 64]
    {
      var reg := Load(mem, s + 64 * r, 64, m0, w, k);
      zmm := zmm + [reg];
    }
    ghost var at := d - w.dst;
    ghost var done := k;
    for r := 0 to 8
      invariant done == if r == 0 then k else Max(k, at + 64 * r)
      invariant Copied(mem[..], m0, w, done)
    {
      Store(mem, d + 64 * r, zmm[r], m0, w, done);
      done := Max(done, at + 64 * r + 64);
    }
  }

  /** The code from label COPY_BLOCK_128_BACK63 on. */
  method CopyBlock128Back63(mem: array<int>, d: nat, s: nat, n: nat, ghost m0: seq<int>, ghost w: Span, ghost k: nat)
    requires Copied(mem[..], m0, w, k) && n <= 128 && 64 <= w.n
    requires w.dst <= d <= w.dst + k && d + n == w.dst + w.n && s == w.src + (d - w.dst)
    modifies mem
    ensures Copied(mem[..], m0, w, w.n)
  {
    if n > 64 {
      Mov(mem, d, s, 64, m0, w, k);
      Mov(mem, d + n - 64, s + n - 64, 64, m0, w, Max(k, d - w.dst + 64));
      return;
    }
    if n > 0 {
      Mov(mem, d + n - 64, s + n - 64, 64, m0, w, k);
    }
  }

  /** clib_memcpy_fast: the destination gets the source bytes, and nothing else is touched. */
  method MemcpyFast(mem: array<int>, base: nat, dst: nat, src: nat, n: nat) returns (ret: nat)
    requires Span(dst, src, n).Fits(mem.Length)
    modifies mem
    ensures ret == dst
    ensures mem[..] == old(mem[..])[..dst] + old(mem[..])[src..src + n] + old(mem[..])[dst + n..]
  {
    ret := dst;
    CopySpan(mem, base, dst, src, n);
    CopiedAll(mem[..], old(mem[..]), Span(dst, src, n));
  }

  /** The branches of clib_memcpy_fast; `base` is the address of mem[0]. */
  method CopySpan(mem: array<int>, base: nat, dst: nat, src: nat, n: nat)
    requires Span(dst, src, n).Fits(mem.Length)
    modifies mem
    ensures Copied(mem[..], old(mem[..]), Span(dst, src, n), n)
  {
    ghost var m0, w := mem[..], Span(dst, src, n);
    if n < 16 {
      CopyBelow16(mem, dst, src, n);
      return;
    }
    if n <= 32 {
      Mov(mem, dst, src, 16, m0, w, 0);
      Mov(mem, dst + n - 16, src + n - 16, 16, m0, w, 16);
      return;
    }
    if n <= 64 {
      Mov(mem, dst, src, 32, m0, w, 0);
      Mov(mem, dst + n - 32, src + n - 32, 32, m0, w, 32);
      return;
    }
    if n <= 512 {
      CopyUpTo512(mem, dst, src, n);
      return;
    }
    CopyAligned(mem, base, dst, src, n);
  }

  method CopyUpTo512(mem: array<int>, dst: nat, src: nat, count: nat)
    requires Span(dst, src, count).Fits(mem.Length) && 64 < count <= 512
    modifies mem
    ensures Copied(mem[..], old(mem[..]), Span(dst, src, count), count)
  {
    ghost var m0, w, k := mem[..], Span(dst, src, count), 0;
    var d, s, n := dst, src, count;
    if n >= 256 {
      n := n - 256;
      Mov256(mem, d, s, m0, w, k);
      s, d, k := s + 256, d + 256, k + 256;
    }
    if n >= 128 {
      n := n - 128;
      Mov128(mem, d, s, m0, w, k);
      s, d, k := s + 128, d + 128, k + 128;
    }
    CopyBlock128Back63(mem, d, s, n, m0, w, k);
  }

  /** The part for more than 512 bytes. */
  method CopyAligned(mem: array<int>, base: nat, dst: nat, src: nat, count: nat)
    requires Span(dst, src, count).Fits(mem.Length) && count > 512
    modifies mem
    ensures Copied(mem[..], old(mem[..]), Span(dst, src, count), count)
  {
    ghost var m0, w, k := mem[..], Span(dst, src, count), 0;
    var d, s, n := dst, src, count;
    var dstofss := (base + d) % 64;
    if dstofss > 0 {
      dstofss := 64 - dstofss;
      n := n - dstofss;
      Mov(mem, d, s, 64, m0, w, k);
      k := 64;
      s, d := s + dstofss, d + dstofss;
    }
    Mov512Blocks(mem, d, s, n, m0, w, k);
    k := Max(k, d - w.dst + (n - n % 512));
    var bits := n;
    n := n % 512;
    bits := bits - n;
    s, d := s + bits, d + bits;
    if n >= 128 {
      Mov128Blocks(mem, d, s, n, m0, w, k);
      k := Max(k, d - w.dst + (n - n % 128));
      bits := n;
      n := n % 128;
      bits := bits - n;
      s, d := s + bits, d + bits;
    }
    CopyBlock128Back63(mem, d, s, n, m0, w, k);
  }
}
