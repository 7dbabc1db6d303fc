/** clib_memcpy_fast with 32-byte registers. */
module MemcpyAvx2 {
  import opened Memcpy

  method Mov64(mem: array<int>, d: nat, s: nat, ghost m0: seq<int>, ghost w: Span, ghost k: nat)
    requires Copied(mem[..], m0, w, k)
    requires w.dst <= d <= w.dst + k && d + 64 <= w.dst + w.n && s == w.src + (d - w.dst)
    modifies mem
    ensures Copied(mem[..], m0, w, Max(k, d - w.dst + 64))
  {
    Mov(mem, d, s, 32, m0, w, k);
    Mov(mem, d + 32, s + 32, 32, m0, w, Max(k, d - w.dst + 32));
  }

  method Mov128(mem: array<int>, d: nat, s: nat, ghost m0: seq<int>, ghost w: Span, ghost k: nat)
    requires Copied(mem[..], m0, w, k)
    requires w.dst <= d <= w.dst + k && d + 128 <= w.dst + w.n && s == w.src + (d - w.dst)
    modifies mem
    ensures Copied(mem[..], m0, w, Max(k, d - w.dst + 128))
  {
    Mov64(mem, d, s, m0, w, k);
    Mov64(mem, d + 64, s + 64, m0, w, Max(k, d - w.dst + 64));
  }

  /** clib_mov128blocks: as many whole 128-byte blocks as fit into count. */
  method Mov128Blocks(mem: array<int>, dst: nat, src: nat, count: nat, ghost m0: seq<int>, ghost w: Span, ghost k: nat)
    requires Copied(mem[..], m0, w, k)
    requires w.dst <= dst <= w.dst + k && dst + count <= w.dst + w.n && src == w.src + (dst - w.dst)
    modifies mem
    ensures Copied(mem[..], m0, w, Max(k, dst - w.dst + (count - count % 128)))
  {
    var d, s, n := dst, src, count;
    ghost var done := k;
    while n >= 128
      invariant 0 <= n <= count && d + n == dst + count && s == w.src + (d - w.dst)
      invariant n % 128 == count % 128 && w.dst <= d
      invariant done == Max(k, d - w.dst)
      invariant Copied(mem[..], m0, w, done)
    {
      Block128(mem, d, s, m0, w, done);
      done := Max(done, d - w.dst + 128);
      n, s, d := n - 128, s + 128, d + 128;
    }
  }

  /** The body of the block loop: four loads, then four stores. */
  method Block128(mem: array<int>, d: nat, s: nat, ghost m0: seq<int>, ghost w: Span, ghost k: nat)
    requires Copied(mem[..], m0, w, k)
    requires w.dst <= d <= w.dst + k && d + 128 <= w.dst + w.n && s == w.src + (d - w.dst)
    modifies mem
    ensures Copied(mem[..], m0, w, Max(k, d - w.dst + 128))
  {
    var ymm0 := Load(mem, s, 32, m0, w, k);
    var ymm1 := Load(mem, s + 32, 32, m0, w, k);
    var ymm2 := Load(mem, s + 64, 32, m0, w, k);
    var ymm3 := Load(mem, s + 96, 32, m0, w, k);
    ghost var at := d - w.dst;
    StoreTwo(mem, d, ymm0, ymm1, m0, w, k);
    StoreTwo(mem, d + 64, ymm2, ymm3, m0, w, Max(k, at + 64));
  }

  method StoreTwo(mem: array<int>, d: nat, r0: seq<int>, r1: seq<int>, ghost m0: seq<int>, ghost w: Span, ghost k: nat)
    requires Copied(mem[..], m0, w, k) && |r0| == |r1| == 32
    requires w.dst <= d <= w.dst + k && d + 64 <= w.dst + w.n
    requires var s := w.src + (d - w.dst); r0 == m0[s..s + 32] && r1 == m0[s + 32..s + 64]
    modifies mem
    ensures Copied(mem[..], m0, w, Max(k, d - w.dst + 64))
  {
    Store(mem, d, r0, m0, w, k);
    Store(mem, d + 32, r1, m0, w, Max(k, d - w.dst + 32));
  }

  /** The code from label COPY_BLOCK_128_BACK31 on; the last move may reach back over bytes already copied. */
  method CopyBlock128Back31(mem: array<int>, dst: nat, src: nat, count: nat, ghost m0: seq<int>, ghost w: Span, ghost k: nat)
    requires Copied(mem[..], m0, w, k) && count <= 128 && 32 <= w.n
    requires w.dst <= dst <= w.dst + k && dst + count == w.dst + w.n && src == w.src + (dst - w.dst)
    modifies mem
    ensures Copied(mem[..], m0, w, w.n)
  {
    var d, s, n := dst, src, count;
    ghost var done := k;
    if n >= 64 {
      n := n - 64;
      Mov64(mem, d, s, m0, w, done);
      done := Max(done, d - w.dst + 64);
      s, d := s + 64, d + 64;
    }
    if n > 32 {
      Mov(mem, d, s, 32, m0, w, done);
      done := Max(done, d - w.dst + 32);
      Mov(mem, d + n - 32, s + n - 32, 32, m0, w, done);
      return;
    }
    if n > 0 {
      Mov(mem, d + n - 32, s + n - 32, 32, m0, w, done);
    }
  }

  /** clib_memcpy_fast: the destination gets the source bytes, and nothing else is touched. */
  method MemcpyFast(mem: array<int>, base: nat, dst: nat, src: nat, n: nat) returns (ret: nat)
    requires Span(dst, src, n).Fits(mem.Length)
    modifies mem
    ensures ret == dst
    ensures mem[..] == old(mem[..])[..dst] + old(mem[..])[src..src + n] + old(mem[..])[dst + n..]
  {
    ret := dst;
    CopySpan(mem, base, dst, src, n);
    CopiedAll(mem[..], old(mem[..]), Span(dst, src, n));
  }

  /** The branches of clib_memcpy_fast; `base` is the address of mem[0], which decides the alignment of the destination. */
  method CopySpan(mem: array<int>, base: nat, dst: nat, src: nat, n: nat)
    requires Span(dst, src, n).Fits(mem.Length)
    modifies mem
    ensures Copied(mem[..], old(mem[..]), Span(dst, src, n), n)
  {
    ghost var m0, w := mem[..], Span(dst, src, n);
    if n < 16 {
      CopyBelow16(mem, dst, src, n);
      return;
    }
    if n <= 32 {
      Mov(mem, dst, src, 16, m0, w, 0);
      Mov(mem, dst + n - 16, src + n - 16, 16, m0, w, 16);
      return;
    }
    if n <= 48 {
      Mov(mem, dst, src, 16, m0, w, 0);
      Mov(mem, dst + 16, src + 16, 16, m0, w, 16);
      Mov(mem, dst + n - 16, src + n - 16, 16, m0, w, 32);
      return;
    }
    if n <= 64 {
      Mov(mem, dst, src, 32, m0, w, 0);
      Mov(mem, dst + n - 32, src + n - 32, 32, m0, w, 32);
      return;
    }
    if n <= 256 {
      if n >= 128 {
        Mov128(mem, dst, src, m0, w, 0);
        CopyBlock128Back31(mem, dst + 128, src + 128, n - 128, m0, w, 128);
      } else {
        CopyBlock128Back31(mem, dst, src, n, m0, w, 0);
      }
      return;
    }
    CopyAligned(mem, base, dst, src, n);
  }

  /** The part for more than 256 bytes: align the destination, copy blocks, jump back into the tail. */
  method CopyAligned(mem: array<int>, base: nat, dst: nat, src: nat, count: nat)
    requires Span(dst, src, count).Fits(mem.Length) && count > 256
    modifies mem
    ensures Copied(mem[..], old(mem[..]), Span(dst, src, count), count)
  {
    ghost var m0, w, k := mem[..], Span(dst, src, count), 0;
    var d, s, n := dst, src, count;
    var dstofss := (base + d) % 32;
    if dstofss > 0 {
      dstofss := 32 - dstofss;
      n := n - dstofss;
      Mov(mem, d, s, 32, m0, w, k);
      k := 32;
      s, d := s + dstofss, d + dstofss;
    }
    Mov128Blocks(mem, d, s, n, m0, w, k);
    k := Max(k, d - w.dst + (n - n % 128));
    var bits := n;
    n := n % 128;
    bits := bits - n;
    s, d := s + bits, d + bits;
    CopyBlock128Back31(mem, d, s, n, m0, w, k);
  }
}
