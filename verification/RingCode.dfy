/**
 The four data-path calls of libmemif as loops over shared memory.

 Each loop pass touches the ring and then lets the peer run.  `PeerRuns` stands for that:
 its body does nothing, and its contract allows any number of steps of the other side, so
 every caller below is proved for every interleaving.  Each call is proved to take only
 steps of the ring machine, so whatever holds of every run holds of this code.
 */
module RingCode {
  import opened Arith
  import opened RingMachine
  import opened RingProofs

  /** Any number of steps of one side only, from s to t. */
  ghost predicate PeerSteps(c: Config, s: State, t: State, producer: bool)
  {
    exists states: seq<State>, actions: seq<Action> ::
      PeerRun(c, states, actions, producer) && states[0] == s && states[|states| - 1] == t
  }

  ghost predicate PeerRun(c: Config, states: seq<State>, actions: seq<Action>, producer: bool)
  {
    && |states| == |actions| + 1
    && (forall i :: 0 <= i < |actions| ==>
          && ByProducer(actions[i]) == producer
          && Enabled(c, states[i], actions[i]) && states[i + 1] == Apply(c, states[i], actions[i]))
  }

  /** What the side that is not running may rely on. */
  ghost predicate Undisturbed(c: Config, s: State, t: State, producer: bool)
  {
    if producer then
      && t.cons == s.cons && t.received == s.received && t.released == s.released
      && (if c.dir.S2M? then t.tail == s.tail else t.head == s.head)
      && |s.published| <= |t.published| && t.published[..|s.published|] == s.published
    else
      && t.prod == s.prod && t.published == s.published && t.mem == s.mem
      && ProducerIndex(c, t) == ProducerIndex(c, s) && s.released <= t.released
  }

  lemma {:induction false} PeerRunFacts(c: Config, states: seq<State>, actions: seq<Action>, producer: bool)
    requires c.Valid() && PeerRun(c, states, actions, producer) && Reachable(c, states[0])
    ensures Reachable(c, states[|states| - 1])
    ensures Undisturbed(c, states[0], states[|states| - 1], producer)
    decreases |actions|
  {
    if |actions| > 0 {
      var n := |actions| - 1;
      PeerRunFacts(c, states[..n + 1], actions[..n], producer);
      ReachStep(c, states[n], actions[n]);
      PeerStepFacts(c, states[n], actions[n]);
    }
  }

  lemma PeerStepFacts(c: Config, s: State, a: Action)
    requires c.Valid() && Reachable(c, s) && Enabled(c, s, a)
    ensures Undisturbed(c, s, Apply(c, s, a), ByProducer(a))
  {
    ReachableInv(c, s);
  }

  /** A master refill gives back at least what it is asked for, as far as there is as much. */
  lemma ReleaseAtLeast(c: Config, s: State, count: u16)
    requires c.Valid() && Reachable(c, s) && Enabled(c, s, Release(count))
    ensures s.released + Min(count, |s.received| - s.released) <= Apply(c, s, Release(count)).released <= |s.received|
  {
    ReachableInv(c, s);
    SizeBounds(c);
    ReleaseBounded(c, s, count);
    WrapDiff(|s.received|, s.released);
    WrapIsRemainder(s.cons.last - s.tail);
    WrapIsRemainder(MasterRefillTail(s.tail, s.cons.last, count) - s.tail);
  }

  lemma PeerFacts(c: Config, s: State, t: State, producer: bool)
    requires c.Valid() && Reachable(c, s) && PeerSteps(c, s, t, producer)
    ensures Reachable(c, t) && Undisturbed(c, s, t, producer)
  {
    var states, actions :| PeerRun(c, states, actions, producer) && states[0] == s && states[|states| - 1] == t;
    PeerRunFacts(c, states, actions, producer);
  }

  /** One ring, with the queue structures of both ends. */
  class Ring {
    const c: Config

    // shared memory
    var head: u16
    var tail: u16
    var desc: seq<Desc>
    var mem: map<Addr, Payload>

    // the transmitting queue and the buffers its user holds
    var allocBufs: nat
    var held: seq<Buf>

    // the receiving queue: last_head of a master, last_tail of a slave
    var last: u16

    ghost var prodPhase: ProducerPhase
    ghost var consPhase: ConsumerPhase
    ghost var published: seq<Packet>
    ghost var received: seq<Packet>
    ghost var released: int

    ghost function Snapshot(): State
      reads this
    {
      State(head, tail, desc, mem, Producer(allocBufs, held, prodPhase), Consumer(last, consPhase),
            published, received, released)
    }

    ghost predicate Valid()
      reads this
    {
      c.Valid() && Reachable(c, Snapshot())
    }

    constructor (c: Config, mem: map<Addr, Payload>)
      requires c.Valid() && forall j :: 0 <= j < c.Size() ==> Addr(1, c.own[j]) in mem
      ensures this.c == c && Valid() && prodPhase.PIdle? && consPhase.CIdle?
      ensures published == [] && received == [] && held == []
    {
      this.c := c;
      head, tail, last, allocBufs := 0, 0, 0, 0;
      this.mem := mem;
      held := [];
      desc := seq(c.Size(), j requires 0 <= j < c.Size() => Desc(false, 1, c.bufferSize, c.own[j]));
      prodPhase, consPhase := PIdle, CIdle;
      published, received := [], [];
      released := if c.dir.S2M? then 0 else 0 - c.Size();
      new;
      ReachInit(c, Snapshot());
    }

    /** The other side runs for as long as it likes. */
    method PeerRuns(ghost producer: bool)
      requires Valid()
      modifies this
      ensures PeerSteps(c, old(Snapshot()), Snapshot(), producer)
    {
      ghost var s := Snapshot();
      assert PeerRun(c, [s], [], producer) && [s][0] == s;
    }

    method Yield(ghost producer: bool)
      requires Valid()
      modifies this
      ensures Valid() && Undisturbed(c, old(Snapshot()), Snapshot(), producer)
    {
      PeerRuns(producer);
      PeerFacts(c, old(Snapshot()), Snapshot(), producer);
    }

    /** memif_buffer_alloc for requests that fit one buffer. */
    method BufferAlloc(count: u16, size: nat) returns (bufs: seq<Buf>, full: bool)
      requires Valid() && prodPhase.PIdle? && 1 <= size <= c.bufferSize
      modifies this
      ensures Valid() && prodPhase.PIdle?
      ensures |bufs| == Min(count, old(released) + c.Size() - old(|published| + allocBufs))
      ensures full <==> |bufs| < count
      ensures held == old(held) + bufs && published == old(published) && mem == old(mem)
      ensures forall k :: 0 <= k < |bufs| ==> bufs[k].len == size
      ensures old(released) <= released
    {
      var slot: u16, ns: u16 := AllocStart(count, size);
      var left: u16 := count;
      bufs := [];
      ghost var free := ns;
      while left > 0 && ns > 0
        invariant Valid() && prodPhase == PAlloc(slot, ns, left, size)
        invariant |bufs| + ns == free && |bufs| + left == count
        invariant held == old(held) + bufs && published == old(published) && mem == old(mem) && old(released) <= released
        invariant forall k :: 0 <= k < |bufs| ==> bufs[k].len == size
      {
        Yield(false);
        var b := AllocPass(slot, ns, left, size);
        bufs := bufs + [b];
        slot := Wrap(slot + 1);
        ns, left := ns - 1, left - 1;
      }
      full := left > 0;
      AllocDone();
    }

    /** Reads both indices: the next slot to hand out and how many are free. */
    method AllocStart(ghost count: u16, ghost size: nat) returns (slot: u16, ns: u16)
      requires Valid() && prodPhase.PIdle? && 1 <= size <= c.bufferSize
      modifies `prodPhase
      ensures Valid() && prodPhase == PAlloc(slot, ns, count, size)
      ensures ns == released + c.Size() - (|published| + allocBufs)
    {
      ghost var s := Snapshot();
      FreeHere(c, s);
      if c.dir.M2S? {
        slot := Wrap(tail + allocBufs);
        ns := Wrap(head - (tail + allocBufs));
      } else {
        slot := Wrap(head + allocBufs);
        ns := Wrap(c.Size() - (head + allocBufs) + tail);
      }
      prodPhase := PAlloc(slot, ns, count, size);
      assert Snapshot() == Apply(c, s, AllocBegin(count, size));
      ReachStep(c, s, AllocBegin(count, size));
    }

    /** One pass of the allocation loop. */
    method AllocPass(slot: u16, ghost ns: u16, ghost left: u16, size: nat) returns (b: Buf)
      requires Valid() && left > 0 && ns > 0 && prodPhase == PAlloc(slot, ns, left, size)
      modifies this
      ensures Valid() && prodPhase == PAlloc(Wrap(slot + 1), ns - 1, left - 1, size)
      ensures b.len == size && b.descIndex == slot && held == old(held) + [b]
      ensures published == old(published) && mem == old(mem) && released == old(released)
    {
      ghost var s := Snapshot();
      AllocRoom(c, s);
      var j := Mask(slot, c.Size());
      desc := desc[j := desc[j].(next := false)];
      var room := if c.dir.M2S? then desc[j].length else c.bufferSize;
      if c.dir.S2M? {
        desc := desc[j := desc[j].(offset := desc[j].offset - And(desc[j].offset, c.bufferSize - 1))];
      }
      b := Buf(slot, Min(room, size), Addr(desc[j].region, desc[j].offset));
      held := held + [b];
      allocBufs := allocBufs + 1;
      prodPhase := PAlloc(Wrap(slot + 1), ns - 1, left - 1, size);
      assert Snapshot() == Apply(c, s, AllocOne);
      ReachStep(c, s, AllocOne);
    }

    ghost method AllocDone()
      requires Valid() && prodPhase.PAlloc? && (prodPhase.count == 0 || prodPhase.ns == 0)
      modifies `prodPhase
      ensures Valid() && prodPhase == PIdle
    {
      ghost var s := Snapshot();
      ReachableInv(c, s);
      prodPhase := PIdle;
      ReachStep(c, s, AllocEnd);
    }

    /** The user fills one of the buffers it holds. */
    method WriteBuffer(k: nat, len: nat, data: Payload)
      requires Valid() && prodPhase.PIdle? && k < |held|
      modifies `mem, `held
      ensures Valid() && |held| == |old(held)|
      ensures held == old(held)[k := old(held)[k].(len := len)] && mem == old(mem)[old(held)[k].data := data]
    {
      ghost var s := Snapshot();
      ReachableInv(c, s);
      mem := mem[held[k].data := data];
      held := held[k := held[k].(len := len)];
      assert Snapshot() == Apply(c, s, Write(k, len, data));
      ReachStep(c, s, Write(k, len, data));
    }

    /** The user reads back one of the buffers it holds. */
    method ReadHeld(k: nat) returns (data: Payload)
      requires Valid() && k < |held|
      ensures held[k].data in mem && data == mem[held[k].data]
    {
      ReachableInv(c, Snapshot());
      HeldInMemory(c, Snapshot());
      data := mem[held[k].data];
    }

    /** The user reads the buffer of a packet it has received and not yet given back. */
    method ReadReceived(descIndex: u16, ghost i: nat) returns (data: Payload)
      requires Valid() && released <= i < |received| && descIndex == Wrap(i)
      ensures data == received[i].data
    {
      ReachableInv(c, Snapshot());
      SlotOfIndex(c, i);
      var j := Mask(descIndex, c.Size());
      data := mem[Addr(desc[j].region, desc[j].offset)];
    }

    /** memif_tx_burst on the oldest buffers held. */
    method TxBurst(count: u16) returns (tx: nat)
      requires Valid() && prodPhase.PIdle?
      modifies this
      ensures Valid() && prodPhase.PIdle?
      ensures tx == Min(count, |old(held)|) && held == old(held)[tx..] && mem == old(mem)
      ensures forall k :: 0 <= k < tx ==> old(held)[k].data in old(mem)
      ensures published == old(published) + PacketsOf(old(mem), old(held)[..tx]) && old(released) <= released
    {
      tx := TxStart(count);
      if tx == 0 {
        return;
      }
      var i := 0;
      while i < tx
        invariant Valid() && i <= tx && prodPhase == PTx(i, tx)
        invariant held == old(held) && published == old(published) && mem == old(mem) && old(released) <= released
      {
        Yield(false);
        TxPass(i, tx);
        i := i + 1;
      }
      Yield(false);
      TxDone(tx);
    }

    /** How many buffers to transmit: no more than are allocated. */
    method TxStart(count: u16) returns (tx: nat)
      requires Valid() && prodPhase.PIdle?
      modifies `prodPhase
      ensures Valid() && tx == Min(count, |held|) && prodPhase == if tx == 0 then PIdle else PTx(0, tx)
    {
      ghost var s := Snapshot();
      ReachableInv(c, s);
      tx := if count > allocBufs then allocBufs else count;
      if tx > 0 {
        prodPhase := PTx(0, tx);
        ReachStep(c, s, TxBegin(count));
      }
    }

    /** One pass of the transmit loop: the descriptor learns the length. */
    method TxPass(i: nat, ghost tx: nat)
      requires Valid() && prodPhase == PTx(i, tx) && i < tx
      modifies `desc, `prodPhase
      ensures Valid() && prodPhase == PTx(i + 1, tx)
    {
      ghost var s := Snapshot();
      ReachableInv(c, s);
      var j := Mask(held[i].descIndex, c.Size());
      desc := desc[j := desc[j].(length := held[i].len)];
      prodPhase := PTx(i + 1, tx);
      assert Snapshot() == Apply(c, s, TxOne);
      ReachStep(c, s, TxOne);
    }

    /** Publication of the new index. */
    method TxDone(tx: nat)
      requires Valid() && prodPhase == PTx(tx, tx)
      modifies this
      ensures Valid() && prodPhase == PIdle && mem == old(mem) && released == old(released)
      ensures tx <= |old(held)| && held == old(held)[tx..]
      ensures forall k :: 0 <= k < tx ==> old(held)[k].data in old(mem)
      ensures published == old(published) + PacketsOf(old(mem), old(held)[..tx])
    {
      ghost var done := Snapshot();
      TxComplete(c, done, tx);
      var index := Wrap(held[tx - 1].descIndex + 1);
      if c.dir.M2S? {
        tail := index;
      } else {
        head := index;
      }
      allocBufs := allocBufs - tx;
      published := published + PacketsOf(mem, held[..tx]);
      held := held[tx..];
      prodPhase := PIdle;
      assert Snapshot() == Apply(c, done, TxPublish);
      ReachStep(c, done, TxPublish);
    }

    /** memif_rx_burst; the packets are those the buffers handed out describe. */
    method RxBurst(count: u16) returns (packets: seq<Packet>, more: bool)
      requires Valid() && consPhase.CIdle?
      modifies this
      ensures Valid() && consPhase.CIdle?
      ensures |packets| == Min(count, old(|published| - |received|))
      ensures more <==> |packets| < old(|published| - |received|)
      ensures received == old(received) + packets && released == old(released) && old(|published|) <= |published|
      ensures old(|received|) + |packets| <= old(|published|)
      ensures packets == old(published)[old(|received|)..old(|received|) + |packets|]
    {
      packets := [];
      more := false;
      var cur: u16 := last;
      var ns: u16 := RxStart(count);
      if ns == 0 {
        return;
      }
      var left: u16 := count;
      ghost var unread := ns;
      while ns > 0 && left > 0
        invariant Valid() && consPhase == CRx(cur, ns, left)
        invariant |packets| + ns == unread && |packets| + left == count
        invariant received == old(received) + packets && released == old(released)
        invariant |published| >= old(|published|) && published[..old(|published|)] == old(published)
      {
        Yield(true);
        var p := RxPass(cur, ns, left);
        packets := packets + [p];
        ns, left := ns - 1, left - 1;
        cur := Wrap(cur + 1);
      }
      RxDone(cur);
      more := ns > 0;
      TakenInOrder(old(published), published, old(received), packets);
    }

    /** Reads the peer's index: how many packets are there to read. */
    method RxStart(ghost count: u16) returns (ns: u16)
      requires Valid() && consPhase.CIdle?
      modifies `consPhase
      ensures Valid() && ns == |published| - |received|
      ensures consPhase == if ns == 0 then CIdle else CRx(last, ns, count)
    {
      ghost var s := Snapshot();
      UnreadHere(c, s);
      var lastSlot := if c.dir.S2M? then head else tail;
      if last == lastSlot {
        return 0;
      }
      ns := Wrap(lastSlot - last);
      consPhase := CRx(last, ns, count);
      ReachStep(c, s, RxBegin(count));
    }

    /** One pass of the receive loop. */
    method RxPass(cur: u16, ghost ns: u16, ghost left: u16) returns (p: Packet)
      requires Valid() && ns > 0 && left > 0 && consPhase == CRx(cur, ns, left)
      modifies `desc, `received, `consPhase
      ensures Valid() && consPhase == CRx(Wrap(cur + 1), ns - 1, left - 1)
      ensures received == old(received) + [p]
    {
      ghost var s := Snapshot();
      ReachableInv(c, s);
      var j := Mask(cur, c.Size());
      p := Packet(desc[j].length, mem[Addr(desc[j].region, desc[j].offset)]);
      if c.dir.M2S? {
        desc := desc[j := desc[j].(length := c.bufferSize)];
      }
      desc := desc[j := desc[j].(next := false)];
      received := received + [p];
      consPhase := CRx(Wrap(cur + 1), ns - 1, left - 1);
      assert Snapshot() == Apply(c, s, RxOne);
      ReachStep(c, s, RxOne);
    }

    method RxDone(cur: u16)
      requires Valid() && consPhase.CRx? && consPhase.cur == cur && (consPhase.ns == 0 || consPhase.count == 0)
      modifies `last, `consPhase
      ensures Valid() && consPhase == CIdle && last == cur
      ensures |received| <= |published| && received == published[..|received|]
    {
      ghost var s := Snapshot();
      ReachableInv(c, s);
      last := cur;
      consPhase := CIdle;
      ReachStep(c, s, RxEnd);
    }

    /** memif_refill_queue without headroom: a master gives slots back, a slave offers them again. */
    method RefillQueue(count: u16)
      requires Valid() && consPhase.CIdle?
      modifies this
      ensures Valid() && consPhase.CIdle? && received == old(received) && old(|published|) <= |published|
      ensures c.dir.M2S? ==> released == old(released) + Min(count, |received| - old(released))
      ensures c.dir.S2M? ==> tail == MasterRefillTail(old(tail), old(last), count)
      ensures old(released) + Min(count, |received| - old(released)) <= released <= |received|
    {
      if c.dir.S2M? {
        MasterRefill(count);
      } else {
        SlaveRefill(count);
      }
    }

    method MasterRefill(count: u16)
      requires Valid() && consPhase.CIdle? && c.dir.S2M?
      modifies `tail, `released
      ensures Valid() && tail == MasterRefillTail(old(tail), last, count)
      ensures released == old(released) + Wrap(tail - old(tail))
      ensures old(released) + Min(count, |received| - old(released)) <= released <= |received|
    {
      ghost var s := Snapshot();
      ReachableInv(c, s);
      ReleaseAtLeast(c, s, count);
      released := released + Wrap(MasterRefillTail(tail, last, count) - tail);
      tail := if tail + count <= last then tail + count else last;
      ReachStep(c, s, Release(count));
    }

    method SlaveRefill(count: u16)
      requires Valid() && consPhase.CIdle? && c.dir.M2S?
      modifies this
      ensures Valid() && consPhase.CIdle? && received == old(received) && old(|published|) <= |published|
      ensures released == old(released) + Min(count, |received| - old(released))
      ensures old(released) <= |received|
    {
      var newHead: u16 := RefillStart(count);
      var slot: u16 := head;
      while slot < newHead
        invariant Valid() && consPhase == CRefill(slot, newHead)
        invariant received == old(received) && released == old(released) && head == old(head) && old(|published|) <= |published|
        decreases newHead - slot
      {
        Yield(true);
        RefillPass(slot, newHead);
        slot := slot + 1;
      }
      Yield(true);
      RefillDone(newHead);
    }

    /** Decides the new head from the slave's own cursor. */
    method RefillStart(count: u16) returns (newHead: u16)
      requires Valid() && consPhase.CIdle? && c.dir.M2S?
      modifies `consPhase
      ensures Valid() && consPhase == CRefill(head, newHead)
      ensures released <= |received| && Wrap(newHead - head) == Min(count, |received| - released)
    {
      ghost var s := Snapshot();
      ReachableInv(c, s);
      newHead := RefillHead(count);
      consPhase := CRefill(head, newHead);
      assert Snapshot() == Apply(c, s, RefillBegin(count));
      ReachStep(c, s, RefillBegin(count));
    }

    /** How far the refill may offer slots. */
    method RefillHead(count: u16) returns (newHead: u16)
      requires Valid() && consPhase.CIdle? && c.dir.M2S?
      ensures newHead == SlaveRefillHead(c, head, last, count)
      ensures released <= |received| && Wrap(newHead - head) == Min(count, |received| - released)
    {
      ReachableInv(c, Snapshot());
      RefillExact(c, Snapshot(), count);
      var ns := Wrap(c.Size() - head + last);
      newHead := Wrap(head + if count < ns then count else ns);
    }

    /** One pass of the reset loop. */
    method RefillPass(slot: u16, newHead: u16)
      requires Valid() && slot < newHead && consPhase == CRefill(slot, newHead)
      modifies `desc, `consPhase
      ensures Valid() && consPhase == CRefill(slot + 1, newHead)
    {
      ghost var s := Snapshot();
      ReachableInv(c, s);
      var j := Mask(slot, c.Size());
      desc := desc[j := desc[j].(region := 1)];
      desc := desc[j := desc[j].(length := c.bufferSize)];
      desc := desc[j := desc[j].(offset := desc[j].offset - And(desc[j].offset, c.bufferSize - 1))];
      consPhase := CRefill(slot + 1, newHead);
      assert Snapshot() == Apply(c, s, RefillOne);
      ReachStep(c, s, RefillOne);
    }

    /** Publication of the new head. */
    method RefillDone(newHead: u16)
      requires Valid() && consPhase.CRefill? && consPhase.head == newHead && consPhase.slot >= newHead
      modifies `head, `released, `consPhase
      ensures Valid() && consPhase == CIdle && head == newHead
      ensures released == old(released) + Wrap(newHead - old(head))
    {
      ghost var s := Snapshot();
      ReachableInv(c, s);
      released := released + Wrap(newHead - head);
      head := newHead;
      consPhase := CIdle;
      assert Snapshot() == Apply(c, s, RefillEnd);
      ReachStep(c, s, RefillEnd);
    }
  }

  /** A buffer on offer holds any request that fits the buffer size, so nothing is chained. */
  lemma AllocRoom(c: Config, s: State)
    requires c.Valid() && Reachable(c, s) && s.prod.phase.PAlloc? && s.prod.phase.ns > 0
    ensures |s.desc| == c.Size()
    ensures c.dir.M2S? ==> s.desc[c.Slot(s.prod.phase.slot)].length == c.bufferSize
    ensures 1 <= s.prod.phase.size <= c.bufferSize
  {
    ReachableInv(c, s);
    SlotOfIndex(c, |s.published| + s.prod.allocBufs);
  }

  /** What memif_tx_burst publishes has been allocated and lies in memory. */
  lemma TxComplete(c: Config, s: State, tx: nat)
    requires c.Valid() && Reachable(c, s) && s.prod.phase == PTx(tx, tx)
    ensures 0 < tx <= |s.prod.held| == s.prod.allocBufs && forall k :: 0 <= k < |s.prod.held| ==> s.prod.held[k].data in s.mem
    ensures Enabled(c, s, TxPublish)
  {
    ReachableInv(c, s);
    HeldInMemory(c, s);
  }

  lemma FreeHere(c: Config, s: State)
    requires c.Valid() && Reachable(c, s)
    ensures |s.desc| == c.Size() && FreeSlots(c, s) == s.released + c.Size() - (|s.published| + s.prod.allocBufs)
  {
    ReachableInv(c, s);
    FreeSlotsExact(c, s);
  }

  lemma UnreadHere(c: Config, s: State)
    requires c.Valid() && Reachable(c, s) && s.cons.phase.CIdle?
    ensures |s.desc| == c.Size() && Wrap(ProducerIndex(c, s) - s.cons.last) == |s.published| - |s.received|
    ensures s.cons.last == ProducerIndex(c, s) <==> |s.published| == |s.received|
  {
    ReachableInv(c, s);
    UnreadExact(c, s);
    assert Wrap(0) == 0;
    if s.cons.last != ProducerIndex(c, s) {
      DistinctApart(ProducerIndex(c, s), s.cons.last);
    }
  }

  lemma DistinctApart(x: u16, y: u16)
    requires x != y
    ensures Wrap(x - y) != 0
  {
    WrapIsRemainder(x - y);
  }

  /** Buffers held at the same time are different buffers. */
  lemma HeldApart(c: Config, s: State, j: nat, k: nat)
    requires c.Valid() && Inv(c, s) && j < k < |s.prod.held|
    ensures s.prod.held[j].data != s.prod.held[k].data
  {
    var x, y := |s.published| + j, |s.published| + k;
    assert s.prod.held[x - |s.published|].data == Addr(1, c.own[c.Slot(x)]);
    assert s.prod.held[y - |s.published|].data == Addr(1, c.own[c.Slot(y)]);
    SlotDistinct(c, x, y);
  }

  lemma TakenInOrder(was: seq<Packet>, now: seq<Packet>, received: seq<Packet>, taken: seq<Packet>)
    requires |was| <= |now| && now[..|was|] == was
    requires |received + taken| <= |was| && received + taken == now[..|received + taken|]
    ensures taken == was[|received|..|received| + |taken|]
  {
    forall k | 0 <= k < |taken|
      ensures taken[k] == was[|received| + k]
    {
      assert (received + taken)[|received| + k] == now[..|was|][|received| + k];
    }
  }
}
