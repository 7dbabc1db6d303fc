/** What the ring promises: order, exclusion, clean buffers, and what a refill gives back. */
module RingTheorems {
  import opened Arith
  import opened RingMachine
  import opened RingProofs

  /** In every reachable state the consumer has received a prefix of what was published, in order. */
  lemma DeliveredInOrder(c: Config, s: State)
    requires c.Valid() && Reachable(c, s)
    ensures |s.received| <= |s.published| && s.received == s.published[..|s.received|]
    ensures s.released <= |s.received|
    ensures |s.published| + s.prod.allocBufs <= s.released + c.Size()
    ensures ProducerIndex(c, s) == |s.published| % 65536
    ensures (if c.dir.S2M? then s.tail == s.released % 65536 else s.head == (s.released + c.Size()) % 65536)
  {
    ReachableInv(c, s);
    WrapIsRemainder(|s.published|);
    WrapIsRemainder(s.released);
    WrapIsRemainder(s.released + c.Size());
  }

  /** A buffer the producer may write is never the buffer of a packet that is unread or not given back. */
  lemma WriterExcluded(c: Config, s: State, k: nat, i: nat)
    requires c.Valid() && Reachable(c, s)
    requires k < |s.prod.held| && s.released <= i < |s.published|
    ensures Mask(s.prod.held[k].descIndex, c.Size()) != Mask(Wrap(i), c.Size())
    ensures s.prod.held[k].data != Addr(1, c.own[c.Slot(i)])
    ensures Addr(1, c.own[c.Slot(i)]) in s.mem && s.mem[Addr(1, c.own[c.Slot(i)])] == s.published[i].data
  {
    ReachableInv(c, s);
    var own := |s.published| + k;
    SlotDistinct(c, i, own);
    SlotOfIndex(c, i);
    SlotOfIndex(c, own);
    assert s.prod.held[own - |s.published|].data == Addr(1, c.own[c.Slot(own)]);
  }

  lemma RunTail(c: Config, states: seq<State>, actions: seq<Action>, q: nat)
    requires c.Valid() && IsRun(c, states, actions) && q < |states|
    ensures Reachable(c, states[q]) && Inv(c, states[q])
  {
    assert IsRun(c, states[..q + 1], actions[..q]);
    RunKeepsInv(c, states[..q + 1], actions[..q]);
  }

  /** Along a run nothing published or received is changed or taken back. */
  lemma {:induction false} HistoryGrows(c: Config, states: seq<State>, actions: seq<Action>, p: nat, q: nat)
    requires c.Valid() && IsRun(c, states, actions) && p <= q < |states|
    ensures states[p].published <= states[q].published
    ensures states[p].received <= states[q].received
    decreases q - p
  {
    if p < q {
      HistoryGrows(c, states, actions, p, q - 1);
      assert states[q] == Apply(c, states[q - 1], actions[q - 1]);
    }
  }

  /**
   A received packet stays in its buffer, whatever the producer does meanwhile, for as
   long as the consumer has not given the slot back.
   */
  lemma ReceivedStaysReadable(c: Config, states: seq<State>, actions: seq<Action>, p: nat, q: nat, i: nat)
    requires c.Valid() && IsRun(c, states, actions) && p <= q < |states|
    requires i < |states[p].received| && states[q].released <= i
    ensures Addr(1, c.own[c.Slot(i)]) in states[q].mem
    ensures states[q].mem[Addr(1, c.own[c.Slot(i)])] == states[p].received[i].data
  {
    RunTail(c, states, actions, p);
    RunTail(c, states, actions, q);
    HistoryGrows(c, states, actions, p, q);
    assert states[p].received[i] == states[p].published[i] == states[q].published[i];
  }

  /**
   On an M2S ring, every slot on offer to the master has region 1, the full buffer length
   and its own buffer, although the reset loop of a refill does nothing when head wraps.
   */
  lemma OfferedSlotsClean(c: Config, s: State, i: nat)
    requires c.Valid() && c.dir.M2S? && Reachable(c, s)
    requires |s.published| + s.prod.allocBufs <= i < s.released + c.Size()
    ensures |s.desc| == c.Size()
    ensures s.desc[c.Slot(i)] == Desc(false, 1, c.bufferSize, c.own[c.Slot(i)])
  {
    ReachableInv(c, s);
  }

  /** The slots a refill has reset are exactly none when the 16-bit head wraps. */
  lemma WrappedRefillResetsNothing(c: Config, s: State, count: u16)
    requires c.Valid() && Reachable(c, s) && Enabled(c, s, RefillBegin(count))
    ensures var t := Apply(c, s, RefillBegin(count));
            var add := Min(count, |s.received| - s.released);
            Enabled(c, t, RefillOne) <==> 0 < add && s.head + add < 65536
  {
    ReachableInv(c, s);
    SizeBounds(c);
    RefillExact(c, s, count);
    WrapIsRemainder(s.head + Min(count, |s.received| - s.released));
  }

  /**
   A master refill gives back min(count, received and not given back) slots exactly when the
   wrapped indices have not crossed zero between tail and last_head, or count covers them all.
   Otherwise the comparison fails and everything received is given back.
   */
  lemma ReleaseExactIff(c: Config, s: State, count: u16)
    requires c.Valid() && Reachable(c, s) && Enabled(c, s, Release(count))
    ensures var t := Apply(c, s, Release(count));
            var outstanding := |s.received| - s.released;
            && (t.released == s.released + Min(count, outstanding) <==>
                  s.tail <= s.cons.last || count >= outstanding)
            && (s.tail > s.cons.last ==> t.released == |s.received|)
  {
    ReachableInv(c, s);
    SizeBounds(c);
    var outstanding := |s.received| - s.released;
    WrapDiff(|s.received|, s.released);
    WrapIsRemainder(s.cons.last - s.tail);
    WrapIsRemainder(MasterRefillTail(s.tail, s.cons.last, count) - s.tail);
  }
}
