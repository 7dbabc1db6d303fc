/**
 Where rings and buffers lie in the two shared regions, and who owns which buffer.

 Region 0 holds the ring areas.  Region 1 holds the buffers; each descriptor of each ring
 names one of them by its offset.  Descriptors are numbered ring by ring, S2M rings first.
 */
module Layout {
  import opened Arith
  import RingMachine

  const RING_HEADER: nat := 128 // sizeof (memif_ring_t)
  const DESC_SIZE: nat := 16    // sizeof (memif_desc_t)
  const INT_LIMIT: nat := 0x8000_0000

  datatype RunArgs = RunArgs(s2mRings: nat, m2sRings: nat, log2: nat, bufferSize: nat) {
    ghost predicate Valid() {
      s2mRings < 256 && m2sRings < 256 && log2 <= 14 && 0 < bufferSize < 65536
    }
    function Rings(): nat { s2mRings + m2sRings }
    function RingSize(): nat { Pow2(log2) }
    function Descriptors(): nat { Rings() * RingSize() }
    function AreaSize(): nat { RING_HEADER + DESC_SIZE * RingSize() }
    /** memif_add_region without buffers. */
    function RingRegionSize(): nat { Rings() * AreaSize() }
    /** memif_add_region with buffers. */
    function BufferRegionSize(): nat { bufferSize * RingSize() * Rings() }
  }

  datatype RingType = S2M | M2S

  /** memif_get_ring, relative to the start of region 0. */
  function RingOffset(a: RunArgs, t: RingType, num: nat): nat {
    (num + if t.M2S? then a.s2mRings else 0) * a.AreaSize()
  }

  ghost predicate IsRing(a: RunArgs, t: RingType, num: nat) {
    num < if t.S2M? then a.s2mRings else a.m2sRings
  }

  /** Every ring area lies inside region 0, and different rings have disjoint areas. */
  lemma RingAreasDisjoint(a: RunArgs, t: RingType, n: nat, t': RingType, n': nat)
    requires IsRing(a, t, n) && IsRing(a, t', n')
    ensures RingOffset(a, t, n) + a.AreaSize() <= a.RingRegionSize()
    ensures (t, n) != (t', n') ==>
              || RingOffset(a, t, n) + a.AreaSize() <= RingOffset(a, t', n')
              || RingOffset(a, t', n') + a.AreaSize() <= RingOffset(a, t, n)
  {
    var r := n + if t.M2S? then a.s2mRings else 0;
    var r' := n' + if t'.M2S? then a.s2mRings else 0;
    MulMonotone(r + 1, a.Rings(), a.AreaSize());
    AreasApart(r, r', a.AreaSize());
  }

  lemma AreasApart(r: nat, r': nat, area: nat)
    ensures r != r' ==> r * area + area <= r' * area || r' * area + area <= r * area
  {
    if r < r' {
      MulMonotone(r + 1, r', area);
    } else if r' < r {
      MulMonotone(r' + 1, r, area);
    }
  }

  /** The ring areas follow one another without gaps, S2M rings first, and fill region 0. */
  lemma RingsTile(a: RunArgs, n: nat)
    ensures a.Rings() > 0 ==> RingOffset(a, if a.s2mRings > 0 then S2M else M2S, 0) == 0
    ensures RingOffset(a, S2M, n + 1) == RingOffset(a, S2M, n) + a.AreaSize()
    ensures RingOffset(a, M2S, n + 1) == RingOffset(a, M2S, n) + a.AreaSize()
    ensures a.s2mRings > 0 ==> RingOffset(a, M2S, 0) == RingOffset(a, S2M, a.s2mRings - 1) + a.AreaSize()
    ensures a.m2sRings > 0 ==> RingOffset(a, M2S, a.m2sRings - 1) + a.AreaSize() == a.RingRegionSize()
    ensures a.AreaSize() == 128 + 16 * a.RingSize()
  {
    var area := a.AreaSize();
    assert (n + 1) * area == n * area + area;
    assert (n + 1 + a.s2mRings) * area == (n + a.s2mRings) * area + area;
    if a.s2mRings > 0 {
      assert a.s2mRings * area == (a.s2mRings - 1) * area + area;
    }
    if a.m2sRings > 0 {
      assert (a.m2sRings + a.s2mRings) * area == (a.m2sRings - 1 + a.s2mRings) * area + area;
    }
  }

  /** The buffers fill region 1. */
  lemma BuffersTile(a: RunArgs)
    requires 0 < a.Descriptors() <= 65536
    ensures InitialOffset(a, 0) == 0
    ensures InitialOffset(a, a.Descriptors() - 1) + a.bufferSize == a.BufferRegionSize()
  {
    var n := a.Descriptors();
    assert (n - 1) * a.bufferSize + a.bufferSize == n * a.bufferSize;
    assert a.bufferSize * a.RingSize() * a.Rings() == (a.Rings() * a.RingSize()) * a.bufferSize;
  }

  /** The offset memif_init_queues gives descriptor k; the block number is a 16-bit variable. */
  function InitialOffset(a: RunArgs, k: nat): nat { Wrap(k) * a.bufferSize }

  /** Buffers are whole blocks of region 1, one per descriptor, none shared. */
  ghost predicate OwnsBlocks(a: RunArgs, offsets: seq<nat>)
    requires 0 < a.bufferSize
  {
    |offsets| == a.Descriptors() && WholeBlocks(offsets, a.bufferSize, a.BufferRegionSize()) && Unshared(offsets)
  }

  ghost predicate WholeBlocks(offsets: seq<nat>, bufferSize: nat, region: nat)
    requires 0 < bufferSize
  {
    forall k :: 0 <= k < |offsets| ==> Mask(offsets[k], bufferSize) == 0 && offsets[k] + bufferSize <= region
  }

  ghost predicate Unshared(offsets: seq<nat>) {
    forall k, k' :: 0 <= k < k' < |offsets| ==> offsets[k] != offsets[k']
  }

  /** Owning whole blocks means that no byte belongs to two descriptors. */
  lemma BlocksDisjoint(a: RunArgs, offsets: seq<nat>, k: nat, k': nat)
    requires 0 < a.bufferSize && OwnsBlocks(a, offsets) && k < k' < |offsets|
    ensures offsets[k] + a.bufferSize <= offsets[k'] || offsets[k'] + a.bufferSize <= offsets[k]
  {
    MaskIsRemainder(offsets[k], a.bufferSize);
    MaskIsRemainder(offsets[k'], a.bufferSize);
    if offsets[k] < offsets[k'] {
      MultiplesApart(offsets[k], offsets[k'], a.bufferSize);
    } else {
      MultiplesApart(offsets[k'], offsets[k], a.bufferSize);
    }
  }

  lemma MultiplesApart(x: nat, y: nat, m: nat)
    requires 0 < m && x % m == 0 && y % m == 0 && x < y
    ensures x + m <= y
  {
    assert y - x == (y / m - x / m) * m;
    MulBounds(y / m - x / m, m);
  }

  lemma InitialOffsetsOwn(a: RunArgs, offsets: seq<nat>)
    requires a.Valid() && a.Descriptors() <= 65536
    requires |offsets| == a.Descriptors()
    requires forall k :: 0 <= k < |offsets| ==> offsets[k] == InitialOffset(a, k)
    ensures OwnsBlocks(a, offsets)
  {
    forall k | 0 <= k < |offsets|
      ensures Mask(offsets[k], a.bufferSize) == 0 && offsets[k] + a.bufferSize <= a.BufferRegionSize()
    {
      OffsetInside(a, k);
    }
    forall k, k' | 0 <= k < k' < |offsets|
      ensures offsets[k] != offsets[k']
    {
      OffsetsDiffer(a, k, k');
    }
  }

  lemma OffsetInside(a: RunArgs, k: nat)
    requires a.Valid() && k < a.Descriptors() <= 65536
    ensures Mask(InitialOffset(a, k), a.bufferSize) == 0
    ensures InitialOffset(a, k) + a.bufferSize <= a.BufferRegionSize()
  {
    BlockInside(k, a.Rings(), a.RingSize(), a.bufferSize);
    MultipleRemainder(k, a.bufferSize);
    MaskIsRemainder(k * a.bufferSize, a.bufferSize);
  }

  lemma OffsetsDiffer(a: RunArgs, k: nat, k': nat)
    requires a.Valid() && k < k' < 65536
    ensures InitialOffset(a, k) < InitialOffset(a, k')
  {
    MulMonotone(k + 1, k', a.bufferSize);
  }

  lemma BlockInside(k: nat, rings: nat, size: nat, bufferSize: nat)
    requires k < rings * size
    ensures k * bufferSize + bufferSize <= bufferSize * size * rings
  {
    MulMonotone(k + 1, rings * size, bufferSize);
    assert bufferSize * size * rings == (rings * size) * bufferSize;
  }

  /** Buffers are private to their descriptor exactly when the 16-bit block number does not wrap. */
  lemma InitialOffsetsPrivateIff(a: RunArgs)
    requires a.Valid()
    ensures a.Descriptors() <= 65536 <==>
            forall k: nat, k': nat :: k < k' < a.Descriptors() ==> InitialOffset(a, k) != InitialOffset(a, k')
  {
    if a.Descriptors() <= 65536 {
      forall k: nat, k': nat | k < k' < a.Descriptors()
        ensures InitialOffset(a, k) != InitialOffset(a, k')
      {
        MulMonotone(k + 1, k', a.bufferSize);
      }
    } else {
      assert InitialOffset(a, 0) == InitialOffset(a, 65536);
    }
  }

  /** Five rings of 16384 descriptors, as memif_create accepts: the first and the 65537th descriptor share a buffer. */
  lemma FiveRingsShare()
    ensures var a := RunArgs(5, 0, 14, 2048);
            a.Valid() && a.Descriptors() == 81920 && InitialOffset(a, 0) == InitialOffset(a, 65536)
  {
    assert Pow2(7) == 128;
    assert Pow2(11) == 2048;
    assert Pow2(14) == 16384;
  }

  /** memif_init_queues: the descriptor loops over all S2M rings and then all M2S rings. */
  method InitQueues(a: RunArgs) returns (offsets: seq<nat>)
    requires a.Valid() && a.Descriptors() <= 65536 && a.BufferRegionSize() < INT_LIMIT
    ensures OwnsBlocks(a, offsets)
    ensures forall k :: 0 <= k < |offsets| ==> offsets[k] == InitialOffset(a, k)
  {
    offsets := InitRings(a, [], 0, a.s2mRings);
    offsets := InitRings(a, offsets, a.s2mRings, a.m2sRings);
    InitialOffsetsOwn(a, offsets);
  }

  /** One of the two ring loops: `count` rings, the first of which is ring number `first`. */
  method InitRings(a: RunArgs, before: seq<nat>, first: nat, count: nat) returns (offsets: seq<nat>)
    requires a.Valid() && |before| == first * a.RingSize()
    requires forall k :: 0 <= k < |before| ==> before[k] == InitialOffset(a, k)
    ensures |offsets| == (first + count) * a.RingSize()
    ensures forall k :: 0 <= k < |offsets| ==> offsets[k] == InitialOffset(a, k)
  {
    offsets := before;
    var i := 0;
    while i < count
      invariant 0 <= i <= count && |offsets| == (first + i) * a.RingSize()
      invariant forall k :: 0 <= k < |offsets| ==> offsets[k] == InitialOffset(a, k)
    {
      ghost var base := |offsets|;
      var j := 0;
      while j < a.RingSize()
        invariant 0 <= j <= a.RingSize() && |offsets| == base + j
        invariant forall k :: 0 <= k < |offsets| ==> offsets[k] == InitialOffset(a, k)
      {
        var slot := Wrap((i + first) * a.RingSize() + j);
        offsets := offsets + [slot * a.bufferSize];
        j := j + 1;
      }
      assert (first + i) * a.RingSize() + a.RingSize() == (first + (i + 1)) * a.RingSize();
      i := i + 1;
    }
  }

  // ----- the offset reset of alloc and refill

  /** `offset - (offset & (buffer_size - 1))`. */
  function Reset(offset: nat, bufferSize: nat): nat
    requires 0 < bufferSize
  {
    offset - And(offset, bufferSize - 1)
  }

  lemma ResetBlock(offset: nat, bufferSize: nat)
    requires IsPow2(bufferSize) && Mask(offset, bufferSize) == 0
    ensures Reset(offset, bufferSize) == offset
  {
    AndIsRemainder(offset, bufferSize);
    MaskIsRemainder(offset, bufferSize);
  }

  /** With at least two descriptors, the reset keeps every initial offset if and only if the buffer size is a power of two. */
  lemma ResetKeepsInitialIff(a: RunArgs)
    requires a.Valid() && a.Descriptors() >= 2
    ensures IsPow2(a.bufferSize) <==>
            forall k: nat :: k < a.Descriptors() ==> Reset(InitialOffset(a, k), a.bufferSize) == InitialOffset(a, k)
  {
    if IsPow2(a.bufferSize) {
      forall k: nat | k < a.Descriptors()
        ensures Reset(InitialOffset(a, k), a.bufferSize) == InitialOffset(a, k)
      {
        ResetInitial(a, k);
      }
    } else {
      assert InitialOffset(a, 1) == a.bufferSize;
      AndPredecessor(a.bufferSize);
    }
  }

  lemma ResetInitial(a: RunArgs, k: nat)
    requires IsPow2(a.bufferSize)
    ensures Reset(InitialOffset(a, k), a.bufferSize) == InitialOffset(a, k)
  {
    MultipleRemainder(Wrap(k), a.bufferSize);
    AndIsRemainder(InitialOffset(a, k), a.bufferSize);
  }

  /** After a reset of both, descriptors k and k' share bytes. */
  ghost predicate ResetOverlap(a: RunArgs, k: nat, k': nat)
    requires 0 < a.bufferSize
  {
    var x, y := Reset(InitialOffset(a, k), a.bufferSize), Reset(InitialOffset(a, k'), a.bufferSize);
    x < y + a.bufferSize && y < x + a.bufferSize
  }

  /** ... and otherwise it moves the second buffer into the first: buffers are private after the reset if and only if the size is a power of two. */
  lemma ResetPrivateIff(a: RunArgs)
    requires a.Valid() && 2 <= a.Descriptors() <= 65536
    ensures IsPow2(a.bufferSize) <==>
            forall k: nat, k': nat :: k < k' < a.Descriptors() ==> !ResetOverlap(a, k, k')
  {
    if IsPow2(a.bufferSize) {
      forall k: nat, k': nat | k < k' < a.Descriptors() ensures !ResetOverlap(a, k, k') {
        ResetApart(a, k, k');
      }
    } else {
      ResetCollides(a);
    }
  }

  lemma ResetApart(a: RunArgs, k: nat, k': nat)
    requires a.Valid() && IsPow2(a.bufferSize) && k < k' < a.Descriptors() <= 65536
    ensures !ResetOverlap(a, k, k')
  {
    ResetInitial(a, k);
    ResetInitial(a, k');
    BlocksAhead(k, k', a.bufferSize);
  }

  lemma BlocksAhead(k: nat, k': nat, size: nat)
    requires k < k'
    ensures k * size + size <= k' * size
  {
    MulMonotone(k + 1, k', size);
  }

  lemma ResetCollides(a: RunArgs)
    requires a.Valid() && !IsPow2(a.bufferSize)
    ensures ResetOverlap(a, 0, 1)
  {
    AndPredecessor(a.bufferSize);
    assert InitialOffset(a, 0) == 0 && InitialOffset(a, 1) == a.bufferSize;
  }

  /** A size memif_create accepts: with 3000-byte buffers the reset puts the second buffer eight bytes behind the start of the first. */
  lemma ResetBreaks3000()
    ensures !IsPow2(3000) && And(3000, 2999) == 2992 && Reset(3000, 3000) == 8
  {
    AndOdd(187);
    AndEven(375);
    AndEven(750);
    AndEven(1500);
    AndPredecessor(3000);
  }

  /** The number of a ring's first descriptor. */
  function FirstDesc(a: RunArgs, ring: nat): nat { ring * a.RingSize() }

  /** Each ring, taken alone, is a ring the ring machine is about. */
  lemma RingConfigValid(a: RunArgs, offsets: seq<nat>, ring: nat, dir: RingMachine.Direction)
    requires a.Valid() && IsPow2(a.bufferSize) && OwnsBlocks(a, offsets) && ring < a.Rings()
    ensures FirstDesc(a, ring) + a.RingSize() <= |offsets|
    ensures RingMachine.Config(dir, a.log2, a.bufferSize, offsets[FirstDesc(a, ring)..FirstDesc(a, ring) + a.RingSize()]).Valid()
  {
    RingInside(a, ring);
    var base := FirstDesc(a, ring);
    SliceConfig(offsets, offsets[base..base + a.RingSize()], base, a.log2, a.bufferSize, a.BufferRegionSize(), dir);
  }

  lemma RingInside(a: RunArgs, ring: nat)
    requires ring < a.Rings()
    ensures FirstDesc(a, ring) + a.RingSize() <= a.Descriptors()
  {
    MulMonotone(ring + 1, a.Rings(), a.RingSize());
  }

  lemma SliceConfig(offsets: seq<nat>, own: seq<nat>, base: nat, log2: nat, bufferSize: nat, region: nat, dir: RingMachine.Direction)
    requires base + |own| <= |offsets| && own == offsets[base..base + |own|]
    requires |own| == Pow2(log2) && log2 <= 14 && IsPow2(bufferSize)
    requires WholeBlocks(offsets, bufferSize, region) && Unshared(offsets)
    ensures RingMachine.Config(dir, log2, bufferSize, own).Valid()
  {
    forall j | 0 <= j < |own| ensures Reset(own[j], bufferSize) == own[j] {
      ResetBlock(offsets[base + j], bufferSize);
    }
    forall j, k | 0 <= j < k < |own| ensures own[j] != own[k] {
      assert own[j] == offsets[base + j] && own[k] == offsets[base + k];
    }
  }

  // ----- moving buffers between rings

  /** A received buffer: its descriptor (numbered across all rings), its offset and its RX flag. */
  datatype RxBuffer = RxBuffer(desc: nat, data: nat, rx: bool)

  /** Resetting a descriptor, as alloc and refill do, changes no owner when the buffer size is a power of two. */
  lemma ResetKeepsOwner(a: RunArgs, offsets: seq<nat>, k: nat)
    requires IsPow2(a.bufferSize) && OwnsBlocks(a, offsets) && k < |offsets|
    ensures offsets[k := Reset(offsets[k], a.bufferSize)] == offsets
  {
    ResetBlock(offsets[k], a.bufferSize);
  }

  lemma SwapKeepsBlocks(a: RunArgs, offsets: seq<nat>, x: nat, y: nat)
    requires 0 < a.bufferSize && OwnsBlocks(a, offsets) && x < |offsets| && y < |offsets|
    ensures OwnsBlocks(a, offsets[x := offsets[y]][y := offsets[x]])
  {
  }

  /** What trading `bufs[i]` for the free buffer of descriptor `slots[i]`, one after the other, leaves behind. */
  function Traded(offsets: seq<nat>, slots: seq<nat>, bufs: seq<RxBuffer>): (r: seq<nat>)
    requires InTable(offsets, slots, bufs)
    ensures |r| == |offsets|
  {
    if |slots| == 0 then offsets
    else
      var n := |slots| - 1;
      var r := Traded(offsets, slots[..n], bufs[..n]);
      r[bufs[n].desc := r[slots[n]]][slots[n] := bufs[n].data]
  }

  /** Different slots, different received buffers, none in a slot, and each still owning its descriptor. */
  ghost predicate Tradable(offsets: seq<nat>, slots: seq<nat>, bufs: seq<RxBuffer>) {
    InTable(offsets, slots, bufs) && StillOwned(offsets, slots, bufs) && AllApart(slots, bufs)
  }

  ghost predicate InTable(offsets: seq<nat>, slots: seq<nat>, bufs: seq<RxBuffer>) {
    |slots| == |bufs| && forall i :: 0 <= i < |slots| ==> slots[i] < |offsets| && bufs[i].desc < |offsets|
  }

  ghost predicate StillOwned(offsets: seq<nat>, slots: seq<nat>, bufs: seq<RxBuffer>)
    requires InTable(offsets, slots, bufs)
  {
    forall i :: 0 <= i < |bufs| ==> offsets[bufs[i].desc] == bufs[i].data
  }

  ghost predicate AllApart(slots: seq<nat>, bufs: seq<RxBuffer>) {
    && (forall i, j :: 0 <= i < j < |slots| ==> slots[i] != slots[j])
    && (forall i, j :: 0 <= i < j < |bufs| ==> bufs[i].desc != bufs[j].desc)
    && (forall i, j :: 0 <= i < |slots| && 0 <= j < |bufs| ==> slots[i] != bufs[j].desc)
  }

  lemma TradablePrefix(offsets: seq<nat>, slots: seq<nat>, bufs: seq<RxBuffer>, n: nat)
    requires Tradable(offsets, slots, bufs) && n <= |slots|
    ensures Tradable(offsets, slots[..n], bufs[..n])
  {
  }

  lemma TradedNext(offsets: seq<nat>, slots: seq<nat>, bufs: seq<RxBuffer>, n: nat)
    requires n < |slots| && InTable(offsets, slots, bufs)
    ensures InTable(offsets, slots[..n], bufs[..n]) && InTable(offsets, slots[..n + 1], bufs[..n + 1])
    ensures var r := Traded(offsets, slots[..n], bufs[..n]);
            Traded(offsets, slots[..n + 1], bufs[..n + 1]) == r[bufs[n].desc := r[slots[n]]][slots[n] := bufs[n].data]
  {
    assert slots[..n + 1][..n] == slots[..n] && bufs[..n + 1][..n] == bufs[..n];
  }

  /** The table after the first n trades. */
  ghost predicate TradedSoFar(offsets: seq<nat>, now: seq<nat>, slots: seq<nat>, bufs: seq<RxBuffer>, n: nat) {
    && InTable(offsets, slots, bufs) && n <= |slots| && InTable(offsets, slots[..n], bufs[..n])
    && now == Traded(offsets, slots[..n], bufs[..n])
  }

  lemma TradedOneMore(offsets: seq<nat>, now: seq<nat>, slots: seq<nat>, bufs: seq<RxBuffer>, n: nat)
    requires TradedSoFar(offsets, now, slots, bufs, n) && n < |slots|
    ensures slots[n] < |now| && bufs[n].desc < |now|
    ensures TradedSoFar(offsets, now[bufs[n].desc := now[slots[n]]][slots[n] := bufs[n].data], slots, bufs, n + 1)
  {
    TradedNext(offsets, slots, bufs, n);
  }

  /** A trade moves the received buffer into the slot and the free one to where the received one came from. */
  lemma {:induction false} TradedOffsets(offsets: seq<nat>, slots: seq<nat>, bufs: seq<RxBuffer>, k: nat)
    requires Tradable(offsets, slots, bufs) && k < |offsets|
    ensures var r := Traded(offsets, slots, bufs);
            && (forall i :: 0 <= i < |slots| && k == slots[i] ==> r[k] == bufs[i].data)
            && (forall i :: 0 <= i < |slots| && k == bufs[i].desc ==> r[k] == offsets[slots[i]])
            && ((forall i :: 0 <= i < |slots| ==> k != slots[i] && k != bufs[i].desc) ==> r[k] == offsets[k])
    decreases |slots|
  {
    if |slots| > 0 {
      var n := |slots| - 1;
      TradablePrefix(offsets, slots, bufs, n);
      TradedOffsets(offsets, slots[..n], bufs[..n], k);
      TradedOffsets(offsets, slots[..n], bufs[..n], slots[n]);
    }
  }

  /** Trades keep every block with exactly one descriptor. */
  lemma {:induction false} TradesKeepBlocks(a: RunArgs, offsets: seq<nat>, slots: seq<nat>, bufs: seq<RxBuffer>)
    requires 0 < a.bufferSize && OwnsBlocks(a, offsets) && Tradable(offsets, slots, bufs)
    ensures OwnsBlocks(a, Traded(offsets, slots, bufs))
    decreases |slots|
  {
    if |slots| > 0 {
      var n := |slots| - 1;
      var r := Traded(offsets, slots[..n], bufs[..n]);
      TradablePrefix(offsets, slots, bufs, n);
      TradesKeepBlocks(a, offsets, slots[..n], bufs[..n]);
      TradedOffsets(offsets, slots[..n], bufs[..n], bufs[n].desc);
      assert r[bufs[n].desc] == bufs[n].data;
      SwapKeepsBlocks(a, r, bufs[n].desc, slots[n]);
    }
  }

  /** The descriptors that `n` consecutive slots of ring `ring` select; the slot is a 16-bit index. */
  function TxSlots(a: RunArgs, ring: nat, start: nat, n: nat): (slots: seq<nat>)
    ensures |slots| == n
    ensures forall i :: 0 <= i < n ==> slots[i] == DescOf(a, ring, Wrap(start + i))
  {
    if n == 0 then [] else TxSlots(a, ring, start, n - 1) + [DescOf(a, ring, Wrap(start + n - 1))]
  }

  function DescOf(a: RunArgs, ring: nat, index: nat): nat { FirstDesc(a, ring) + Mask(index, a.RingSize()) }

  ghost predicate OnRing(a: RunArgs, ring: nat, desc: nat) {
    FirstDesc(a, ring) <= desc < FirstDesc(a, ring) + a.RingSize()
  }

  /** What the caller of memif_buffer_enq_tx has: buffers received on other rings, all different, each still owning its descriptor. */
  ghost predicate ReceivedElsewhere(a: RunArgs, offsets: seq<nat>, ring: nat, bufs: seq<RxBuffer>) {
    && (forall i :: 0 <= i < |bufs| ==>
          bufs[i].desc < |offsets| && !OnRing(a, ring, bufs[i].desc) && offsets[bufs[i].desc] == bufs[i].data)
    && (forall i, j :: 0 <= i < j < |bufs| ==> bufs[i].desc != bufs[j].desc)
  }

  lemma SlotsDiffer(a: RunArgs, ring: nat, start: nat, i: nat, j: nat)
    requires a.log2 <= 14 && i < j < i + a.RingSize()
    ensures DescOf(a, ring, Wrap(start + i)) != DescOf(a, ring, Wrap(start + j))
  {
    MaskOfWrap(start + i, a.log2);
    MaskOfWrap(start + j, a.log2);
    MaskIsRemainder(start + i, a.RingSize());
    MaskIsRemainder(start + j, a.RingSize());
    RemainderDistinct(start + i, start + j, a.RingSize());
  }

  /** No more slots than the ring has: they are different descriptors of this ring, and none is a received buffer's. */
  lemma SlotsTradable(a: RunArgs, offsets: seq<nat>, ring: nat, start: nat, bufs: seq<RxBuffer>)
    requires a.Valid() && |offsets| == a.Descriptors() && ring < a.Rings() && |bufs| <= a.RingSize()
    requires ReceivedElsewhere(a, offsets, ring, bufs)
    ensures Tradable(offsets, TxSlots(a, ring, start, |bufs|), bufs)
  {
    RingInside(a, ring);
    var slots := TxSlots(a, ring, start, |bufs|);
    forall i, j | 0 <= i < j < |slots| ensures slots[i] != slots[j] {
      SlotsDiffer(a, ring, start, i, j);
    }
    forall i | 0 <= i < |slots| ensures OnRing(a, ring, slots[i]) {
    }
  }

  /** How many of the first `free` buffers carry the RX flag, up to the first that does not. */
  function RxPrefix(bufs: seq<RxBuffer>, free: nat): (n: nat)
    ensures n <= |bufs| && n <= free
    ensures forall i :: 0 <= i < n ==> bufs[i].rx
    ensures n < |bufs| && n < free ==> !bufs[n].rx
  {
    if |bufs| == 0 || free == 0 || !bufs[0].rx then 0 else 1 + RxPrefix(bufs[1..], free - 1)
  }

  lemma NextSlot(start: nat, i: nat)
    ensures Wrap(Wrap(start + i) + 1) == Wrap(start + (i + 1))
  {
    WrapAdd(start + i, 1);
  }

  lemma FewerReceived(a: RunArgs, offsets: seq<nat>, ring: nat, bufs: seq<RxBuffer>, n: nat)
    requires n <= |bufs| && ReceivedElsewhere(a, offsets, ring, bufs)
    ensures ReceivedElsewhere(a, offsets, ring, bufs[..n])
  {
  }

  /** The slave's transmit ring, as far as its indices go. */
  function TxConfig(a: RunArgs): RingMachine.Config { RingMachine.Config(RingMachine.S2M, a.log2, a.bufferSize, []) }

  lemma EnqTradable(a: RunArgs, offsets: seq<nat>, ring: nat, slot: nat, bufs: seq<RxBuffer>, s: RingMachine.State)
    requires a.Valid() && |offsets| == a.Descriptors() && ring < a.Rings()
    requires RingMachine.Ordered(TxConfig(a), s) && RingMachine.IndicesTrack(TxConfig(a), s)
    requires ReceivedElsewhere(a, offsets, ring, bufs)
    ensures var n := RxPrefix(bufs, RingMachine.FreeSlots(TxConfig(a), s));
            Tradable(offsets, TxSlots(a, ring, slot, n), bufs[..n])
  {
    RingMachine.FreeSlotsExact(TxConfig(a), s);
    var n := RxPrefix(bufs, RingMachine.FreeSlots(TxConfig(a), s));
    FewerReceived(a, offsets, ring, bufs, n);
    SlotsTradable(a, offsets, ring, slot, bufs[..n]);
  }

  class BufferTable {
    const a: RunArgs
    var offsets: seq<nat>

    constructor (a: RunArgs, offsets: seq<nat>)
      ensures this.a == a && this.offsets == offsets
    {
      this.a, this.offsets := a, offsets;
    }

    /**
     memif_buffer_enq_tx on a slave's transmit ring whose indices are those of the ring state s: each
     received buffer trades places with the free buffer of the next slot.  The loop stays on a buffer
     that lacks the RX flag, so nothing after it is enqueued.
     */
    method EnqTx(ring: nat, head: u16, tail: u16, alloc: nat, bufs: seq<RxBuffer>, ghost s: RingMachine.State)
      returns (out: nat)
      requires a.Valid() && OwnsBlocks(a, offsets) && ring < a.Rings()
      requires var c := TxConfig(a); RingMachine.Ordered(c, s) && RingMachine.IndicesTrack(c, s)
      requires s.head == head && s.tail == tail && s.prod.allocBufs == alloc
      requires ReceivedElsewhere(a, offsets, ring, bufs)
      modifies this
      ensures out == RxPrefix(bufs, RingMachine.FreeSlots(TxConfig(a), s))
      ensures InTable(old(offsets), TxSlots(a, ring, Wrap(head + alloc), out), bufs[..out])
      ensures offsets == Traded(old(offsets), TxSlots(a, ring, Wrap(head + alloc), out), bufs[..out])
      ensures OwnsBlocks(a, offsets)
    {
      var slot: u16, ns: u16 := Wrap(head + alloc), Wrap(a.RingSize() - (head + alloc) + tail);
      assert ns == RingMachine.FreeSlots(TxConfig(a), s);
      EnqTradable(a, offsets, ring, slot, bufs, s);
      out := EnqFrom(ring, slot, ns, bufs);
    }

    /** From slot `start` on, with `free` slots: the trades keep buffers private. */
    method EnqFrom(ring: nat, start: u16, free: nat, bufs: seq<RxBuffer>) returns (out: nat)
      requires 0 < a.bufferSize && OwnsBlocks(a, offsets)
      requires var n := RxPrefix(bufs, free); Tradable(offsets, TxSlots(a, ring, start, n), bufs[..n])
      modifies this
      ensures out == RxPrefix(bufs, free)
      ensures InTable(old(offsets), TxSlots(a, ring, start, out), bufs[..out])
      ensures offsets == Traded(old(offsets), TxSlots(a, ring, start, out), bufs[..out])
      ensures OwnsBlocks(a, offsets)
    {
      out := SwapLoop(ring, start, free, bufs);
      TradesKeepBlocks(a, old(offsets), TxSlots(a, ring, start, out), bufs[..out]);
    }

    /** The loop of memif_buffer_enq_tx. */
    method SwapLoop(ring: nat, start: u16, free: nat, bufs: seq<RxBuffer>) returns (out: nat)
      requires var n := RxPrefix(bufs, free); InTable(offsets, TxSlots(a, ring, start, n), bufs[..n])
      modifies this
      ensures out == RxPrefix(bufs, free)
      ensures InTable(old(offsets), TxSlots(a, ring, start, out), bufs[..out])
      ensures offsets == Traded(old(offsets), TxSlots(a, ring, start, out), bufs[..out])
    {
      ghost var n := RxPrefix(bufs, free);
      ghost var slots, taken := TxSlots(a, ring, start, n), bufs[..n];
      out := 0;
      var count: int, ns: int, slot: u16 := |bufs|, free, start;
      while count > 0 && ns > 0
        invariant 0 <= out <= n && 0 <= count <= |bufs| - out && out + ns == free && slot == Wrap(start + out)
        invariant out + count < |bufs| ==> out == n
        invariant TradedSoFar(old(offsets), offsets, slots, taken, out)
      {
        if !bufs[out].rx {
          count := count - 1;
          continue;
        }
        TradeNext(DescOf(a, ring, slot), bufs[out], out, old(offsets), slots, taken);
        NextSlot(start, out);
        count, ns, slot, out := count - 1, ns - 1, Wrap(slot + 1), out + 1;
      }
      assert slots[..n] == slots && taken[..n] == taken;
    }

    /** One pass of the loop that enqueues a buffer. */
    method TradeNext(d: nat, buf: RxBuffer, ghost i: nat, ghost was: seq<nat>, ghost slots: seq<nat>, ghost taken: seq<RxBuffer>)
      requires TradedSoFar(was, offsets, slots, taken, i) && i < |slots| && d == slots[i] && buf == taken[i]
      modifies this
      ensures TradedSoFar(was, offsets, slots, taken, i + 1)
    {
      TradedOneMore(was, offsets, slots, taken, i);
      Trade(d, buf);
    }

    /** The received buffer goes into descriptor d and the free one to where the received one came from. */
    method Trade(d: nat, buf: RxBuffer)
      requires d < |offsets| && buf.desc < |offsets|
      modifies this
      ensures offsets == old(offsets)[buf.desc := old(offsets)[d]][d := buf.data]
    {
      offsets := offsets[buf.desc := offsets[d]];
      offsets := offsets[d := buf.data];
    }
  }
}
