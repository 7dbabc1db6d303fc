/** Every run of the ring machine keeps the invariant, and what that means for its users. */
module RingProofs {
  import opened Arith
  import opened RingMachine

  lemma InvInit(c: Config, s: State)
    requires c.Valid() && Init(c, s)
    ensures Inv(c, s)
  {
    SizeBounds(c);
  }

  /** Moving a cursor or an index forward disturbs no descriptor and no buffer. */
  lemma CursorMoveKeepsContents(c: Config, s: State, t: State)
    requires c.Valid() && Inv(c, s) && Counters(c, t)
    requires t.desc == s.desc && t.mem == s.mem && t.prod.held == s.prod.held
    requires t.published == s.published && t.received == s.received && s.released <= t.released
    requires t.prod.phase.PTx? ==> t.prod.phase.i == 0 || t.prod == s.prod
    ensures Contents(c, t)
  {
  }

  lemma KeepCursorMove(c: Config, s: State, a: Action)
    requires c.Valid() && Inv(c, s) && Enabled(c, s, a) && Counters(c, Apply(c, s, a))
    requires !(a.AllocOne? || a.Write? || a.TxOne? || a.TxPublish? || a.RxOne? || a.RefillOne?)
    ensures Contents(c, Apply(c, s, a))
  {
    CursorMoveKeepsContents(c, s, Apply(c, s, a));
  }

  // ----- producer actions

  lemma AllocCounters(c: Config, s: State, a: Action)
    requires c.Valid() && Counters(c, s) && Enabled(c, s, a) && (a.AllocBegin? || a.AllocOne?)
    ensures Counters(c, Apply(c, s, a))
  {
    if a.AllocBegin? {
      AllocBeginCounters(c, s, a);
    } else {
      WrapAdd(|s.published| + s.prod.allocBufs, 1);
    }
  }

  lemma AllocBeginCounters(c: Config, s: State, a: Action)
    requires c.Valid() && Counters(c, s) && Enabled(c, s, a) && a.AllocBegin?
    ensures Counters(c, Apply(c, s, a))
  {
    AllocBegun(c, s, Apply(c, s, a), a.count, a.size);
  }

  lemma AllocBegun(c: Config, s: State, t: State, count: u16, size: nat)
    requires c.Valid() && Counters(c, s) && 1 <= size <= c.bufferSize
    requires t == s.(prod := s.prod.(phase := PAlloc(Wrap(ProducerIndex(c, s) + s.prod.allocBufs), FreeSlots(c, s), count, size)))
    ensures Counters(c, t)
  {
    FreeSlotsExact(c, s);
    WrapAdd(|s.published|, s.prod.allocBufs);
  }

  lemma ProducerCounters(c: Config, s: State, a: Action)
    requires c.Valid() && Counters(c, s) && Enabled(c, s, a)
    requires a.AllocEnd? || a.Write? || a.TxBegin? || a.TxOne?
    ensures Counters(c, Apply(c, s, a))
  {
  }

  lemma PublishCounters(c: Config, s: State, a: Action)
    requires c.Valid() && Counters(c, s) && Enabled(c, s, a) && a.TxPublish?
    ensures Counters(c, Apply(c, s, a))
  {
    var t := Apply(c, s, a);
    var n := s.prod.phase.n;
    assert |t.published| == |s.published| + n;
    WrapAdd(|s.published| + (n - 1), 1);
    assert ProducerIndex(c, t) == Wrap(|t.published|);
    HeldShifted(s.prod.held, |s.published|, n);
  }

  lemma HeldShifted(held: seq<Buf>, first: nat, n: nat)
    requires n <= |held| && forall k :: 0 <= k < |held| ==> held[k].descIndex == Wrap(first + k)
    ensures forall k :: 0 <= k < |held| - n ==> held[n..][k].descIndex == Wrap(first + n + k)
  {
    forall k | 0 <= k < |held| - n ensures held[n..][k].descIndex == Wrap(first + n + k) {
      assert held[n..][k] == held[n + k];
    }
  }

  lemma AllocOneContents(c: Config, s: State, a: Action)
    requires c.Valid() && Inv(c, s) && Enabled(c, s, a) && a.AllocOne? && Counters(c, Apply(c, s, a))
    ensures Contents(c, Apply(c, s, a))
  {
    var t := Apply(c, s, a);
    SlotOfIndex(c, |s.published| + s.prod.allocBufs);
    OneMoreHeld(c, s, t);
  }

  /** The next slot's own buffer joins the held ones; nothing else moves. */
  lemma OneMoreHeld(c: Config, s: State, t: State)
    requires c.Valid() && Counters(c, s) && Contents(c, s) && Counters(c, t) && !t.prod.phase.PTx?
    requires t == s.(prod := t.prod) && |t.prod.held| == |s.prod.held| + 1 && t.prod.held[..|s.prod.held|] == s.prod.held
    requires t.prod.held[|s.prod.held|].data == Addr(1, c.own[c.Slot(|s.published| + |s.prod.held|)])
    ensures Contents(c, t)
  {
    forall i | 0 <= i - |t.published| < |t.prod.held|
      ensures t.prod.held[i - |t.published|].data == Addr(1, c.own[c.Slot(i)])
    {
      if i - |t.published| < |s.prod.held| {
        assert t.prod.held[..|s.prod.held|][i - |t.published|] == s.prod.held[i - |s.published|];
      }
    }
  }

  lemma WriteContents(c: Config, s: State, a: Action)
    requires c.Valid() && Inv(c, s) && Enabled(c, s, a) && a.Write? && Counters(c, Apply(c, s, a))
    ensures Contents(c, Apply(c, s, a))
  {
    var t := Apply(c, s, a);
    HeldRewritten(c, s, t, a.k);
    OneBufferWritten(c, s, t, a.k, a.data);
  }

  lemma HeldRewritten(c: Config, s: State, t: State, k: nat)
    requires c.Valid() && |s.desc| == c.Size() && HeldPlaced(c, s) && k < |s.prod.held| && s.prod.phase.PIdle?
    requires t.desc == s.desc && t.published == s.published && t.prod.phase == s.prod.phase
    requires |t.prod.held| == |s.prod.held| && t.prod.held == s.prod.held[k := t.prod.held[k]] && t.prod.held[k].data == s.prod.held[k].data
    ensures HeldPlaced(c, t)
  {
  }

  lemma OneBufferWritten(c: Config, s: State, t: State, k: nat, data: Payload)
    requires c.Valid() && Counters(c, s) && Contents(c, s) && Counters(c, t) && k < |s.prod.held|
    requires t == s.(mem := t.mem, prod := t.prod) && HeldPlaced(c, t) && t.prod.allocBufs == s.prod.allocBufs
    requires t.mem == s.mem[Addr(1, c.own[c.Slot(|s.published| + k)]) := data]
    ensures Contents(c, t)
  {
    UnreadBuffersKept(c, s, t, k, data);
  }

  /** Filling an allocated buffer touches no packet that is still to be given back. */
  lemma UnreadBuffersKept(c: Config, s: State, t: State, k: nat, data: Payload)
    requires c.Valid() && Counters(c, s) && Contents(c, s) && k < |s.prod.held|
    requires t.desc == s.desc && t.published == s.published && t.received == s.received && t.released == s.released
    requires t.mem == s.mem[Addr(1, c.own[c.Slot(|s.published| + k)]) := data]
    ensures DataIntact(c, t)
  {
    forall i | 0 <= i < |s.published| && s.released <= i
      ensures c.Slot(i) != c.Slot(|s.published| + k)
    {
      SlotDistinct(c, i, |s.published| + k);
    }
  }

  lemma TxOneContents(c: Config, s: State, a: Action)
    requires c.Valid() && Inv(c, s) && Enabled(c, s, a) && a.TxOne? && Counters(c, Apply(c, s, a))
    ensures Contents(c, Apply(c, s, a))
  {
    var t := Apply(c, s, a);
    var k := s.prod.phase.i;
    SlotOfIndex(c, |s.published| + k);
    HeldLengthStored(c, s, t, k);
  }

  /** The slot of an allocated buffer is no slot that is unread, and no slot that is still free. */
  lemma HeldSlotApart(c: Config, s: State, k: nat)
    requires c.Valid() && Counters(c, s) && k < |s.prod.held|
    ensures forall i :: 0 <= i < |s.published| + k && s.released <= i ==> c.Slot(i) != c.Slot(|s.published| + k)
    ensures forall i :: |s.published| + k < i < |s.received| + c.Size() ==> c.Slot(i) != c.Slot(|s.published| + k)
  {
    var own := |s.published| + k;
    forall i | 0 <= i < own && s.released <= i
      ensures c.Slot(i) != c.Slot(own)
    {
      SlotDistinct(c, i, own);
    }
    forall i | own < i < |s.received| + c.Size()
      ensures c.Slot(i) != c.Slot(own)
    {
      SlotDistinct(c, own, i);
    }
  }

  lemma LengthStoredForOthers(c: Config, s: State, t: State, k: nat)
    requires c.Valid() && Counters(c, s) && Contents(c, s) && k < |s.prod.held|
    requires t.published == s.published && t.received == s.received && t.released == s.released && t.mem == s.mem
    requires t.prod.allocBufs == s.prod.allocBufs && |t.desc| == c.Size()
    requires var j := c.Slot(|s.published| + k); t.desc == s.desc[j := t.desc[j]]
    ensures DataIntact(c, t) && LengthsRestored(c, t)
  {
    HeldSlotApart(c, s, k);
  }

  lemma LengthStoredForHeld(c: Config, s: State, t: State, k: nat)
    requires c.Valid() && Counters(c, s) && |s.desc| == c.Size() && HeldPlaced(c, s) && k < |s.prod.held|
    requires s.prod.phase.PTx? && s.prod.phase.i == k
    requires t.published == s.published && t.prod == s.prod.(phase := s.prod.phase.(i := k + 1)) && |t.desc| == c.Size()
    requires var j := c.Slot(|s.published| + k);
             t.desc == s.desc[j := t.desc[j]] && t.desc[j].length == s.prod.held[k].len
    ensures HeldPlaced(c, t)
  {
    HeldSlotApart(c, s, k);
  }

  /** Storing the length of an allocated buffer disturbs neither unread packets nor free slots. */
  lemma HeldLengthStored(c: Config, s: State, t: State, k: nat)
    requires c.Valid() && Counters(c, s) && Contents(c, s) && k < |s.prod.held| && Counters(c, t)
    requires t == s.(desc := t.desc, prod := t.prod) && t.prod == s.prod.(phase := t.prod.phase)
    requires s.prod.phase.PTx? && s.prod.phase.i == k && t.prod.phase == PTx(k + 1, s.prod.phase.n)
    requires var j := c.Slot(|s.published| + k);
             t.desc == s.desc[j := s.desc[j].(length := s.prod.held[k].len)]
    ensures Contents(c, t)
  {
    LengthStoredForOthers(c, s, t, k);
    LengthStoredForHeld(c, s, t, k);
  }

  lemma PublishContents(c: Config, s: State, a: Action)
    requires c.Valid() && Inv(c, s) && Enabled(c, s, a) && a.TxPublish? && Counters(c, Apply(c, s, a))
    ensures Contents(c, Apply(c, s, a))
  {
    var t := Apply(c, s, a);
    var n := s.prod.phase.n;
    HeldBecomePublished(c, s, t, n);
  }

  lemma PublishedData(c: Config, s: State, t: State, n: nat)
    requires c.Valid() && Counters(c, s) && Contents(c, s) && Counters(c, t)
    requires s.prod.phase == PTx(n, n) && n <= |s.prod.held|
    requires forall k :: 0 <= k < n ==> s.prod.held[k].data in s.mem
    requires t.desc == s.desc && t.mem == s.mem && t.received == s.received && t.released == s.released
    requires t.published == s.published + PacketsOf(s.mem, s.prod.held[..n])
    ensures DataIntact(c, t)
  {
    var p := |s.published|;
    forall i | p <= i < p + n
      ensures t.published[i].data == s.mem[Addr(1, c.own[c.Slot(i)])]
      ensures s.desc[c.Slot(i)].length == t.published[i].len
    {
      assert s.prod.held[i - p].data == Addr(1, c.own[c.Slot(i)]);
    }
    assert t.received == t.published[..|t.received|];
  }

  lemma HeldBecomePublished(c: Config, s: State, t: State, n: nat)
    requires c.Valid() && Counters(c, s) && Contents(c, s) && Counters(c, t)
    requires s.prod.phase == PTx(n, n) && n <= |s.prod.held|
    requires forall k :: 0 <= k < n ==> s.prod.held[k].data in s.mem
    requires t.desc == s.desc && t.mem == s.mem && t.received == s.received && t.released == s.released
    requires t.published == s.published + PacketsOf(s.mem, s.prod.held[..n])
    requires t.prod == Producer(s.prod.allocBufs - n, s.prod.held[n..], PIdle)
    ensures Contents(c, t)
  {
    PublishedData(c, s, t, n);
    forall i | 0 <= i - |t.published| < |t.prod.held|
      ensures t.prod.held[i - |t.published|].data == Addr(1, c.own[c.Slot(i)])
    {
      assert s.prod.held[i - |s.published|].data == Addr(1, c.own[c.Slot(i)]);
    }
  }

  // ----- consumer actions

  lemma RxCounters(c: Config, s: State, a: Action)
    requires c.Valid() && Counters(c, s) && Enabled(c, s, a) && (a.RxBegin? || a.RxOne? || a.RxEnd?)
    ensures Counters(c, Apply(c, s, a))
  {
    if a.RxBegin? {
      UnreadExact(c, s);
    } else if a.RxOne? {
      RxOneCounters(c, s, a);
    }
  }

  lemma RxOneCounters(c: Config, s: State, a: Action)
    requires c.Valid() && Counters(c, s) && Enabled(c, s, a) && a.RxOne?
    ensures Counters(c, Apply(c, s, a))
  {
    WrapAdd(|s.received|, 1);
  }

  lemma ReleaseCounters(c: Config, s: State, a: Action)
    requires c.Valid() && Counters(c, s) && Enabled(c, s, a) && a.Release?
    ensures Counters(c, Apply(c, s, a))
  {
    ReleaseBounded(c, s, a.give);
  }

  lemma RefillBeginCounters(c: Config, s: State, a: Action)
    requires c.Valid() && Counters(c, s) && Enabled(c, s, a) && a.RefillBegin?
    ensures Counters(c, Apply(c, s, a))
  {
    RefillExact(c, s, a.fill);
    RefillSpan(c, s, a.fill);
  }

  /** The reset loop starts below the new head only when the head does not wrap, and then spans what is offered. */
  lemma RefillSpan(c: Config, s: State, count: u16)
    requires c.Valid() && c.dir.M2S? && Ordered(c, s)
    requires var add := Min(count, |s.received| - s.released);
             SlaveRefillHead(c, s.head, s.cons.last, count) == Wrap(s.head + add)
    ensures var head := SlaveRefillHead(c, s.head, s.cons.last, count);
            s.head < head ==> head - s.head == Min(count, |s.received| - s.released)
  {
    SizeBounds(c);
    WrapIsRemainder(s.head + Min(count, |s.received| - s.released));
  }

  lemma HeadAdvance(n: int, head: u16, head': u16)
    requires head == Wrap(n)
    ensures head' == Wrap(n + Wrap(head' - head))
  {
    WrapAdd(n, head' - head);
    WrapAdd(head' - head, n);
  }

  lemma RefillEndCounters(c: Config, s: State, a: Action)
    requires c.Valid() && Counters(c, s) && Enabled(c, s, a) && (a.RefillOne? || a.RefillEnd?)
    ensures Counters(c, Apply(c, s, a))
  {
    if a.RefillEnd? {
      HeadAdvance(s.released + c.Size(), s.head, s.cons.phase.head);
    }
  }

  lemma RxOneContents(c: Config, s: State, a: Action)
    requires c.Valid() && Inv(c, s) && Enabled(c, s, a) && a.RxOne? && Counters(c, Apply(c, s, a))
    ensures Contents(c, Apply(c, s, a))
  {
    SlotOfIndex(c, |s.received|);
    NextPacketTaken(c, s, Apply(c, s, a));
  }

  lemma UnreadSlotApart(c: Config, s: State)
    ensures forall i :: |s.received| < i < |s.received| + c.Size() ==> c.Slot(i) != c.Slot(|s.received|)
    ensures c.Slot(|s.received| + c.Size()) == c.Slot(|s.received|)
  {
    forall i | |s.received| < i < |s.received| + c.Size()
      ensures c.Slot(i) != c.Slot(|s.received|)
    {
      SlotDistinct(c, |s.received|, i);
    }
  }

  lemma PacketTakenInOrder(c: Config, s: State, t: State)
    requires c.Valid() && Counters(c, s) && Contents(c, s) && Counters(c, t)
    requires |s.received| < |s.published|
    requires t == s.(desc := t.desc, received := t.received, cons := t.cons)
    requires var j := c.Slot(|s.received|);
             var d := s.desc[j];
             && t.desc == s.desc[j := d.(next := false, length := if c.dir.M2S? then c.bufferSize else d.length)]
             && t.received == s.received + [Packet(d.length, s.mem[Addr(d.region, d.offset)])]
    ensures DataIntact(c, t)
  {
    UnreadSlotApart(c, s);
    assert t.received == s.published[..|s.received| + 1];
  }

  lemma TakenSlotApart(c: Config, s: State, t: State)
    requires c.Valid() && Counters(c, s) && |s.received| < |s.published| && |s.desc| == c.Size()
    requires HeldPlaced(c, s) && LengthsRestored(c, s)
    requires |t.received| == |s.received| + 1 && t.published == s.published && t.prod == s.prod
    requires |t.desc| == c.Size()
    requires var j := c.Slot(|s.received|);
             t.desc == s.desc[j := t.desc[j]] && (c.dir.M2S? ==> t.desc[j].length == c.bufferSize)
    ensures HeldPlaced(c, t) && LengthsRestored(c, t)
  {
    UnreadSlotApart(c, s);
  }

  lemma NextPacketTaken(c: Config, s: State, t: State)
    requires c.Valid() && Counters(c, s) && Contents(c, s) && Counters(c, t)
    requires |s.received| < |s.published|
    requires t == s.(desc := t.desc, received := t.received, cons := t.cons)
    requires var j := c.Slot(|s.received|);
             var d := s.desc[j];
             && t.desc == s.desc[j := d.(next := false, length := if c.dir.M2S? then c.bufferSize else d.length)]
             && t.received == s.received + [Packet(d.length, s.mem[Addr(d.region, d.offset)])]
    ensures Contents(c, t)
  {
    PacketTakenInOrder(c, s, t);
    assert HeldPlaced(c, t) && LengthsRestored(c, t) by {
      TakenSlotApart(c, s, t);
    }
  }

  lemma RefillOneContents(c: Config, s: State, a: Action)
    requires c.Valid() && Inv(c, s) && Enabled(c, s, a) && a.RefillOne? && Counters(c, Apply(c, s, a))
    ensures Contents(c, Apply(c, s, a))
  {
    var i := RefillIndex(c, s);
    SlotOfIndex(c, i);
    ReceivedSlotReset(c, s, Apply(c, s, a), i);
  }

  /** The unbounded index of the slot that the reset loop is at. */
  lemma RefillIndex(c: Config, s: State) returns (i: nat)
    requires c.Valid() && Counters(c, s) && s.cons.phase.CRefill? && s.cons.phase.slot < s.cons.phase.head
    ensures Wrap(i) == s.cons.phase.slot
    ensures s.released + c.Size() <= i < |s.received| + c.Size()
  {
    var p := s.cons.phase;
    var advance := Wrap(p.head - s.head);
    i := s.released + c.Size() + advance - (p.head - p.slot);
    WrapAdd(s.released + c.Size(), advance - (p.head - p.slot));
    WrapAdd(p.head - s.head, s.head - (p.head - p.slot));
  }

  lemma ReceivedSlotReset(c: Config, s: State, t: State, i: nat)
    requires c.Valid() && Counters(c, s) && Contents(c, s) && Counters(c, t)
    requires c.dir.M2S? && s.released + c.Size() <= i < |s.received| + c.Size()
    requires t == s.(desc := t.desc, cons := t.cons)
    requires var j := c.Slot(i);
             var d := s.desc[j];
             t.desc == s.desc[j := d.(region := 1, length := c.bufferSize, offset := c.AlignDown(d.offset))]
    ensures Contents(c, t)
  {
    assert |s.published| + s.prod.allocBufs <= i;
    assert t.desc == s.desc;
  }

  lemma CountersStep(c: Config, s: State, a: Action)
    requires c.Valid() && Counters(c, s) && Enabled(c, s, a)
    ensures Counters(c, Apply(c, s, a))
  {
    match a
    case AllocBegin(_, _) => AllocCounters(c, s, a);
    case AllocOne => AllocCounters(c, s, a);
    case TxPublish => PublishCounters(c, s, a);
    case RxBegin(_) => RxCounters(c, s, a);
    case RxOne => RxCounters(c, s, a);
    case RxEnd => RxCounters(c, s, a);
    case Release(_) => ReleaseCounters(c, s, a);
    case RefillBegin(_) => RefillBeginCounters(c, s, a);
    case RefillOne => RefillEndCounters(c, s, a);
    case RefillEnd => RefillEndCounters(c, s, a);
    case _ => ProducerCounters(c, s, a);
  }

  lemma InvStep(c: Config, s: State, a: Action)
    requires c.Valid() && Inv(c, s) && Enabled(c, s, a)
    ensures Inv(c, Apply(c, s, a))
  {
    CountersStep(c, s, a);
    match a
    case AllocOne => AllocOneContents(c, s, a);
    case Write(_, _, _) => WriteContents(c, s, a);
    case TxOne => TxOneContents(c, s, a);
    case TxPublish => PublishContents(c, s, a);
    case RxOne => RxOneContents(c, s, a);
    case RefillOne => RefillOneContents(c, s, a);
    case _ => KeepCursorMove(c, s, a);
  }

  lemma {:induction false} RunKeepsInv(c: Config, states: seq<State>, actions: seq<Action>)
    requires c.Valid() && IsRun(c, states, actions)
    ensures Inv(c, states[|states| - 1])
    decreases |actions|
  {
    if |actions| == 0 {
      InvInit(c, states[0]);
    } else {
      var n := |actions| - 1;
      RunKeepsInv(c, states[..n + 1], actions[..n]);
      InvStep(c, states[n], actions[n]);
    }
  }

  lemma ReachableInv(c: Config, s: State)
    requires c.Valid() && Reachable(c, s)
    ensures Inv(c, s)
  {
    var states, actions :| IsRun(c, states, actions) && states[|states| - 1] == s;
    RunKeepsInv(c, states, actions);
  }

  /** Every buffer the producer holds exists. */
  lemma HeldInMemory(c: Config, s: State)
    requires c.Valid() && Inv(c, s)
    ensures forall k :: 0 <= k < |s.prod.held| ==> s.prod.held[k].data in s.mem
  {
    forall k | 0 <= k < |s.prod.held|
      ensures s.prod.held[k].data in s.mem
    {
      var i := |s.published| + k;
      assert s.prod.held[i - |s.published|].data == Addr(1, c.own[c.Slot(i)]);
    }
  }
}
