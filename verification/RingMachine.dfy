/**
 One memif descriptor ring as a state machine over its atomic steps.

 A ring joins a producer and a consumer that run in different processes.  On an
 S2M ring the slave produces and publishes at `head`, and the master releases at
 `tail`.  On an M2S ring the slave offers empty buffers at `head`, and the master
 fills them and publishes at `tail`.  All indices are free-running 16-bit numbers.

 Every action below is one indivisible piece of memif_buffer_alloc,
 memif_tx_burst, memif_rx_burst or memif_refill_queue: the read of the peer's
 index, one pass of a loop over descriptors, or the publication of an index.
 Between any two actions of one side the other side may take any number of steps,
 so an index that was read may be stale by the time it is used.

 The state also carries unbounded history: the packets published and received so
 far, and how many slots the consumer has given back.
 */
module RingMachine {
  import opened Arith

  const MAX_LOG2_RING_SIZE: nat := 14

  datatype Direction = S2M | M2S

  /** Run arguments of the ring; `own[j]` is the offset of the buffer that descriptor j starts out with. */
  datatype Config = Config(dir: Direction, log2: nat, bufferSize: nat, own: seq<nat>) {
    ghost predicate Valid() {
      && log2 <= MAX_LOG2_RING_SIZE && IsPow2(bufferSize) && |own| == Size()
      && (forall j, k :: 0 <= j < k < |own| ==> own[j] != own[k])
      && (forall j :: 0 <= j < |own| ==> AlignDown(own[j]) == own[j])
    }

    function Size(): nat { Pow2(log2) }

    /** The descriptor that an index selects: `index & mask`. */
    function Slot(index: nat): (j: nat)
      ensures j < Size()
    {
      Mask(index, Size())
    }

    /** `offset - (offset & offset_mask)`, with the mask `buffer_size - 1`. */
    function AlignDown(offset: nat): nat
      requires 0 < bufferSize
    {
      offset - And(offset, bufferSize - 1)
    }
  }

  type Payload = seq<nat>

  datatype Addr = Addr(region: nat, offset: nat)
  datatype Desc = Desc(next: bool, region: nat, length: nat, offset: nat)
  datatype Buf = Buf(descIndex: u16, len: nat, data: Addr)
  datatype Packet = Packet(len: nat, data: Payload)

  /** Where the producer is inside memif_buffer_alloc or memif_tx_burst. */
  datatype ProducerPhase =
    | PIdle
    | PAlloc(slot: u16, ns: u16, count: u16, size: nat)
    | PTx(i: nat, n: nat)

  /** Where the consumer is inside memif_rx_burst or the slave branch of memif_refill_queue. */
  datatype ConsumerPhase =
    | CIdle
    | CRx(cur: u16, ns: u16, count: u16)
    | CRefill(slot: u16, head: u16)

  /** `held` lists the allocated buffers not yet transmitted, oldest first. */
  datatype Producer = Producer(allocBufs: nat, held: seq<Buf>, phase: ProducerPhase)

  /** `last` is last_head for a master and last_tail for a slave. */
  datatype Consumer = Consumer(last: u16, phase: ConsumerPhase)

  datatype State = State(
    head: u16, tail: u16, desc: seq<Desc>, mem: map<Addr, Payload>,
    prod: Producer, cons: Consumer,
    published: seq<Packet>, received: seq<Packet>, released: int)

  datatype Action =
    | AllocBegin(count: u16, size: nat)
    | AllocOne
    | AllocEnd
    | Write(k: nat, len: nat, data: Payload)
    | TxBegin(burst: u16)
    | TxOne
    | TxPublish
    | RxBegin(room: u16)
    | RxOne
    | RxEnd
    | Release(give: u16)
    | RefillBegin(fill: u16)
    | RefillOne
    | RefillEnd

  predicate ByProducer(a: Action) {
    a.AllocBegin? || a.AllocOne? || a.AllocEnd? || a.Write? || a.TxBegin? || a.TxOne? || a.TxPublish?
  }

  /** The producer's own index: the one it publishes. */
  function ProducerIndex(c: Config, s: State): u16 { if c.dir.S2M? then s.head else s.tail }

  /** memif_buffer_alloc, free slots as the 16-bit code computes them. */
  function FreeSlots(c: Config, s: State): u16 {
    if c.dir.M2S? then Wrap(s.head - (s.tail + s.prod.allocBufs))
    else Wrap(c.Size() - (s.head + s.prod.allocBufs) + s.tail)
  }

  /** memif_refill_queue, master branch: the comparison is done on unbounded ints. */
  function MasterRefillTail(tail: u16, lastHead: u16, count: u16): u16 {
    if tail + count <= lastHead then tail + count else lastHead
  }

  /** memif_refill_queue, slave branch: the new head. */
  function SlaveRefillHead(c: Config, head: u16, lastTail: u16, count: u16): u16 {
    Wrap(head + Min(count, Wrap(c.Size() - head + lastTail)))
  }

  function PacketsOf(mem: map<Addr, Payload>, held: seq<Buf>): (ps: seq<Packet>)
    requires forall k :: 0 <= k < |held| ==> held[k].data in mem
  {
    seq(|held|, k requires 0 <= k < |held| => Packet(held[k].len, mem[held[k].data]))
  }

  predicate Enabled(c: Config, s: State, a: Action)
  {
    |s.desc| == c.Size() && c.bufferSize > 0 &&
    match a
    case AllocBegin(count, size) => s.prod.phase.PIdle? && 1 <= size <= c.bufferSize
    case AllocOne => s.prod.phase.PAlloc? && s.prod.phase.count > 0 && s.prod.phase.ns > 0
    case AllocEnd => s.prod.phase.PAlloc? && (s.prod.phase.count == 0 || s.prod.phase.ns == 0)
    case Write(k, len, data) => s.prod.phase.PIdle? && k < |s.prod.held|
    case TxBegin(count) => s.prod.phase.PIdle? && 0 < Min(count, s.prod.allocBufs) <= |s.prod.held|
    case TxOne => s.prod.phase.PTx? && s.prod.phase.i < s.prod.phase.n <= |s.prod.held|
    case TxPublish =>
      && s.prod.phase.PTx? && 0 < s.prod.phase.i == s.prod.phase.n <= |s.prod.held|
      && s.prod.phase.n <= s.prod.allocBufs
      && (forall k :: 0 <= k < s.prod.phase.n ==> s.prod.held[k].data in s.mem)
    case RxBegin(count) =>
      s.cons.phase.CIdle? && s.cons.last != ProducerIndex(c, s)
    case RxOne =>
      && s.cons.phase.CRx? && s.cons.phase.ns > 0 && s.cons.phase.count > 0
      && (var d := s.desc[c.Slot(s.cons.phase.cur)]; Addr(d.region, d.offset) in s.mem)
    case RxEnd => s.cons.phase.CRx? && (s.cons.phase.ns == 0 || s.cons.phase.count == 0)
    case Release(count) => c.dir.S2M? && s.cons.phase.CIdle?
    case RefillBegin(count) => c.dir.M2S? && s.cons.phase.CIdle?
    case RefillOne => s.cons.phase.CRefill? && s.cons.phase.slot < s.cons.phase.head
    case RefillEnd => s.cons.phase.CRefill? && s.cons.phase.slot >= s.cons.phase.head
  }

  function Apply(c: Config, s: State, a: Action): State
    requires Enabled(c, s, a)
  {
    match a
    case AllocBegin(count, size) =>
      var slot := Wrap(ProducerIndex(c, s) + s.prod.allocBufs);
      s.(prod := s.prod.(phase := PAlloc(slot, FreeSlots(c, s), count, size)))
    case AllocOne =>
      var p := s.prod.phase;
      var j := c.Slot(p.slot);
      var d0 := s.desc[j].(next := false);
      var room := if c.dir.M2S? then d0.length else c.bufferSize;
      // the slave resets the buffer offset
      var d1 := if c.dir.S2M? then d0.(offset := c.AlignDown(d0.offset)) else d0;
      var b := Buf(p.slot, Min(room, p.size), Addr(d1.region, d1.offset));
      s.(desc := s.desc[j := d1],
         prod := Producer(s.prod.allocBufs + 1, s.prod.held + [b],
                          PAlloc(Wrap(p.slot + 1), p.ns - 1, p.count - 1, p.size)))
    case AllocEnd => s.(prod := s.prod.(phase := PIdle))
    case Write(k, len, data) =>
      var b := s.prod.held[k];
      s.(mem := s.mem[b.data := data], prod := s.prod.(held := s.prod.held[k := b.(len := len)]))
    case TxBegin(count) => s.(prod := s.prod.(phase := PTx(0, Min(count, s.prod.allocBufs))))
    case TxOne =>
      var b := s.prod.held[s.prod.phase.i];
      var j := c.Slot(b.descIndex);
      s.(desc := s.desc[j := s.desc[j].(length := b.len)],
         prod := s.prod.(phase := s.prod.phase.(i := s.prod.phase.i + 1)))
    case TxPublish =>
      var n := s.prod.phase.n;
      var index := Wrap(s.prod.held[n - 1].descIndex + 1);
      var t := s.(prod := Producer(s.prod.allocBufs - n, s.prod.held[n..], PIdle),
                  published := s.published + PacketsOf(s.mem, s.prod.held[..n]));
      if c.dir.M2S? then t.(tail := index) else t.(head := index)
    case RxBegin(count) =>
      s.(cons := s.cons.(phase := CRx(s.cons.last, Wrap(ProducerIndex(c, s) - s.cons.last), count)))
    case RxOne =>
      var p := s.cons.phase;
      var j := c.Slot(p.cur);
      var d := s.desc[j];
      // the slave resets the buffer length
      var d' := d.(next := false, length := if c.dir.M2S? then c.bufferSize else d.length);
      s.(desc := s.desc[j := d'],
         received := s.received + [Packet(d.length, s.mem[Addr(d.region, d.offset)])],
         cons := s.cons.(phase := CRx(Wrap(p.cur + 1), p.ns - 1, p.count - 1)))
    case RxEnd => s.(cons := Consumer(s.cons.phase.cur, CIdle))
    case Release(count) =>
      var tail := MasterRefillTail(s.tail, s.cons.last, count);
      s.(tail := tail, released := s.released + Wrap(tail - s.tail))
    case RefillBegin(count) =>
      s.(cons := s.cons.(phase := CRefill(s.head, SlaveRefillHead(c, s.head, s.cons.last, count))))
    case RefillOne =>
      var p := s.cons.phase;
      var j := c.Slot(p.slot);
      var d := s.desc[j];
      s.(desc := s.desc[j := d.(region := 1, length := c.bufferSize, offset := c.AlignDown(d.offset))],
         cons := s.cons.(phase := CRefill(p.slot + 1, p.head)))
    case RefillEnd =>
      var head := s.cons.phase.head;
      s.(head := head, released := s.released + Wrap(head - s.head), cons := s.cons.(phase := CIdle))
  }

  /** memif_init_queues followed by memif_connect1; buffers may hold anything. */
  ghost predicate Init(c: Config, s: State)
    requires c.Valid()
  {
    && s.head == 0 && s.tail == 0
    && |s.desc| == c.Size()
    && (forall j :: 0 <= j < c.Size() ==> s.desc[j] == Desc(false, 1, c.bufferSize, c.own[j]))
    && (forall j :: 0 <= j < c.Size() ==> Addr(1, c.own[j]) in s.mem)
    && s.prod == Producer(0, [], PIdle) && s.cons == Consumer(0, CIdle)
    && s.published == [] && s.received == []
    && s.released == if c.dir.S2M? then 0 else 0 - c.Size()
  }

  /** A run: every interleaving of producer and consumer actions, of any length. */
  ghost predicate IsRun(c: Config, states: seq<State>, actions: seq<Action>)
    requires c.Valid()
  {
    && |states| == |actions| + 1
    && Init(c, states[0])
    && (forall i :: 0 <= i < |actions| ==>
          Enabled(c, states[i], actions[i]) && states[i + 1] == Apply(c, states[i], actions[i]))
  }

  ghost predicate Reachable(c: Config, s: State)
    requires c.Valid()
  {
    exists states, actions :: IsRun(c, states, actions) && states[|states| - 1] == s
  }

  lemma ReachInit(c: Config, s: State)
    requires c.Valid() && Init(c, s)
    ensures Reachable(c, s)
  {
    assert IsRun(c, [s], []);
  }

  lemma ReachStep(c: Config, s: State, a: Action)
    requires c.Valid() && Reachable(c, s) && Enabled(c, s, a)
    ensures Reachable(c, Apply(c, s, a))
  {
    var states, actions :| IsRun(c, states, actions) && states[|states| - 1] == s;
    assert IsRun(c, states + [Apply(c, s, a)], actions + [a]);
  }

  // ----- the invariant

  /** Slots not yet given back, in order: released <= received <= published <= published + allocated <= released + size. */
  ghost predicate Ordered(c: Config, s: State)
  {
    s.released <= |s.received| <= |s.published|
    && |s.published| + s.prod.allocBufs <= s.released + c.Size()
  }

  /** The 16-bit indices are the unbounded counters modulo 2^16. */
  ghost predicate IndicesTrack(c: Config, s: State)
  {
    && ProducerIndex(c, s) == Wrap(|s.published|)
    && (c.dir.S2M? ==> s.released >= 0 && s.tail == Wrap(s.released))
    && (c.dir.M2S? ==> s.released >= 0 - c.Size() && s.head == Wrap(s.released + c.Size()))
  }

  ghost predicate ProducerOk(c: Config, s: State)
  {
    var p := s.prod.phase;
    && |s.prod.held| == s.prod.allocBufs
    && (forall k :: 0 <= k < |s.prod.held| ==>
          s.prod.held[k].descIndex == Wrap(|s.published| + k))
    && (p.PAlloc? ==>
          && p.slot == Wrap(|s.published| + s.prod.allocBufs)
          && |s.published| + s.prod.allocBufs + p.ns <= s.released + c.Size()
          && 1 <= p.size <= c.bufferSize)
    && (p.PTx? ==> p.i <= p.n <= s.prod.allocBufs && 0 < p.n)
  }

  ghost predicate ConsumerOk(c: Config, s: State)
  {
    var p := s.cons.phase;
    && (p.CRx? ==> p.cur == Wrap(|s.received|) && |s.received| + p.ns <= |s.published|)
    && (!p.CRx? ==> s.cons.last == Wrap(|s.received|))
    && (p.CRefill? ==>
          && c.dir.M2S?
          && s.released + Wrap(p.head - s.head) <= |s.received|
          && (p.slot < p.head ==> p.head - p.slot <= Wrap(p.head - s.head)))
  }

  /** Every descriptor keeps its region and its own buffer, and that buffer exists. */
  ghost predicate DescriptorsOwn(c: Config, s: State)
    requires c.Valid()
  {
    && |s.desc| == c.Size()
    && (forall j :: 0 <= j < c.Size() ==>
          s.desc[j].region == 1 && s.desc[j].offset == c.own[j] && !s.desc[j].next)
    && (forall j :: 0 <= j < c.Size() ==> Addr(1, c.own[j]) in s.mem)
  }

  /** Published packets sit untouched in their slots until they are given back. */
  ghost predicate DataIntact(c: Config, s: State)
    requires c.Valid()
    requires |s.desc| == c.Size() && s.released <= |s.received| <= |s.published|
  {
    && (forall i :: |s.received| <= i < |s.published| ==>
          s.desc[c.Slot(i)].length == s.published[i].len)
    && (forall i :: 0 <= i < |s.published| && s.released <= i ==>
          Addr(1, c.own[c.Slot(i)]) in s.mem && s.mem[Addr(1, c.own[c.Slot(i)])] == s.published[i].data)
    && s.received == s.published[..|s.received|]
  }

  /** Allocated buffers are the buffers of the next slots; lengths are stored before publication. */
  ghost predicate HeldPlaced(c: Config, s: State)
    requires c.Valid()
    requires |s.desc| == c.Size()
  {
    && (forall i :: 0 <= i - |s.published| < |s.prod.held| ==>
          s.prod.held[i - |s.published|].data == Addr(1, c.own[c.Slot(i)]))
    && (s.prod.phase.PTx? && s.prod.phase.i <= |s.prod.held| ==>
          forall i :: 0 <= i - |s.published| < s.prod.phase.i ==>
            s.desc[c.Slot(i)].length == s.prod.held[i - |s.published|].len)
  }

  /** On an M2S ring every slot the master has not taken has its full length. */
  ghost predicate LengthsRestored(c: Config, s: State)
    requires |s.desc| == c.Size()
  {
    c.dir.M2S? ==>
      forall i :: |s.published| + s.prod.allocBufs <= i < |s.received| + c.Size() ==>
        s.desc[c.Slot(i)].length == c.bufferSize
  }

  /** What the indices and cursors say. */
  ghost predicate Counters(c: Config, s: State)
  {
    Ordered(c, s) && IndicesTrack(c, s) && ProducerOk(c, s) && ConsumerOk(c, s)
  }

  /** What the descriptors and buffers hold. */
  ghost predicate Contents(c: Config, s: State)
    requires c.Valid() && Counters(c, s)
  {
    DescriptorsOwn(c, s) && HeldPlaced(c, s) && DataIntact(c, s) && LengthsRestored(c, s)
  }

  ghost predicate Inv(c: Config, s: State)
    requires c.Valid()
  {
    Counters(c, s) && Contents(c, s)
  }

  // ----- index arithmetic

  lemma SizeBounds(c: Config)
    requires c.log2 <= MAX_LOG2_RING_SIZE
    ensures 0 < c.Size() <= 16384
  {
    Pow2Monotone(c.log2, 14);
    Pow2Sixteen();
  }

  /** Masking a wrapped index selects the same slot as the unbounded one. */
  lemma SlotOfIndex(c: Config, i: nat)
    requires c.Valid()
    ensures c.Slot(Wrap(i)) == c.Slot(i)
  {
    MaskOfWrap(i, c.log2);
  }

  lemma SlotDistinct(c: Config, i: nat, j: nat)
    requires i < j < i + c.Size()
    ensures c.Slot(i) != c.Slot(j)
  {
    RemainderDistinct(i, j, c.Size());
    MaskIsRemainder(i, c.Size());
    MaskIsRemainder(j, c.Size());
  }

  /** The 16-bit free-slot count is exact. */
  lemma FreeSlotsExact(c: Config, s: State)
    requires c.log2 <= MAX_LOG2_RING_SIZE && Ordered(c, s) && IndicesTrack(c, s)
    ensures FreeSlots(c, s) == s.released + c.Size() - (|s.published| + s.prod.allocBufs)
  {
    SizeBounds(c);
    var p: int, r: int, a: int := |s.published|, s.released, s.prod.allocBufs;
    if c.dir.M2S? {
      WrapMix(r + c.Size(), 0 - a, p);
    } else {
      WrapMix(r, c.Size() - a, p);
    }
  }

  /** The number of packets memif_rx_burst sees is exact. */
  lemma UnreadExact(c: Config, s: State)
    requires c.Valid() && Ordered(c, s) && IndicesTrack(c, s) && s.cons.last == Wrap(|s.received|)
    ensures Wrap(ProducerIndex(c, s) - s.cons.last) == |s.published| - |s.received|
  {
    SizeBounds(c);
    WrapDiff(|s.published|, |s.received|);
  }

  /** The int comparison of a master refill never moves tail backwards or past last_head. */
  lemma ReleaseBounded(c: Config, s: State, count: u16)
    requires c.Valid() && c.dir.S2M? && Ordered(c, s) && IndicesTrack(c, s) && s.cons.last == Wrap(|s.received|)
    ensures var tail := MasterRefillTail(s.tail, s.cons.last, count);
            var released := s.released + Wrap(tail - s.tail);
            s.released <= released <= |s.received| && tail == Wrap(released)
  {
    SizeBounds(c);
    var tail := MasterRefillTail(s.tail, s.cons.last, count);
    var gap := |s.received| - s.released;
    WrapDiff(|s.received|, s.released);
    WrapAdd(s.released, tail - s.tail);
    WrapAdd(tail - s.tail, s.tail);
    WrapAdd(s.released, Wrap(tail - s.tail));
  }

  /** A slave refill offers min(count, received and not yet offered again) slots. */
  lemma RefillExact(c: Config, s: State, count: u16)
    requires c.Valid() && c.dir.M2S? && Ordered(c, s) && IndicesTrack(c, s) && s.cons.last == Wrap(|s.received|)
    ensures var add := Min(count, |s.received| - s.released);
            var head := SlaveRefillHead(c, s.head, s.cons.last, count);
            Wrap(head - s.head) == add && head == Wrap(s.head + add)
  {
    SizeBounds(c);
    WrapMix(|s.received|, c.Size(), s.released + c.Size());
    WrapAdd(s.head + Min(count, |s.received| - s.released), 0 - s.head);
  }
}
