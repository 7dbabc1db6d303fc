/** The ring never gets stuck: from every reachable state it can be emptied and used again. */
module RingProgress {
  import opened Arith
  import opened RingMachine
  import opened RingProofs
  import opened RingTheorems

  ghost predicate IsSegment(c: Config, states: seq<State>, actions: seq<Action>) {
    && |states| == |actions| + 1
    && (forall i :: 0 <= i < |actions| ==>
          Enabled(c, states[i], actions[i]) && states[i + 1] == Apply(c, states[i], actions[i]))
  }

  /** Some steps of both sides lead from s to t. */
  ghost predicate Leads(c: Config, s: State, t: State) {
    exists states, actions :: IsSegment(c, states, actions) && states[0] == s && states[|actions|] == t
  }

  lemma LeadsNowhere(c: Config, s: State)
    ensures Leads(c, s, s)
  {
    assert IsSegment(c, [s], []) && [s][0] == s;
  }

  /** One more step at the end of a continuation. */
  lemma Take(c: Config, s0: State, s: State, a: Action) returns (t: State)
    requires c.Valid() && Leads(c, s0, s) && Reachable(c, s) && Enabled(c, s, a)
    ensures t == Apply(c, s, a) && Leads(c, s0, t) && Reachable(c, t) && Inv(c, t)
  {
    t := Apply(c, s, a);
    LeadsOn(c, s0, s, a);
    ReachStep(c, s, a);
    ReachableInv(c, t);
  }

  lemma LeadsOn(c: Config, s0: State, s: State, a: Action)
    requires Leads(c, s0, s) && Enabled(c, s, a)
    ensures Leads(c, s0, Apply(c, s, a))
  {
    var states, actions :| IsSegment(c, states, actions) && states[0] == s0 && states[|actions|] == s;
    SegmentOn(c, states, actions, a);
  }

  lemma SegmentOn(c: Config, states: seq<State>, actions: seq<Action>, a: Action)
    requires IsSegment(c, states, actions) && Enabled(c, states[|actions|], a)
    ensures Leads(c, states[0], Apply(c, states[|actions|], a))
  {
    var more, acts := states + [Apply(c, states[|actions|], a)], actions + [a];
    forall i | 0 <= i < |acts| ensures Enabled(c, more[i], acts[i]) && more[i + 1] == Apply(c, more[i], acts[i]) {
      if i < |actions| {
        assert more[i] == states[i] && more[i + 1] == states[i + 1];
      }
    }
    assert IsSegment(c, more, acts) && more[0] == states[0];
  }

  /** Where a continuation that starts at s0 has got to. */
  ghost predicate Along(c: Config, s0: State, s: State)
    requires c.Valid()
  {
    Leads(c, s0, s) && Reachable(c, s) && Inv(c, s) && s0.published <= s.published && s0.received <= s.received
  }

  lemma AlongStart(c: Config, s: State)
    requires c.Valid() && Reachable(c, s)
    ensures Along(c, s, s)
  {
    LeadsNowhere(c, s);
    ReachableInv(c, s);
  }

  lemma Go(c: Config, s0: State, s: State, a: Action) returns (t: State)
    requires c.Valid() && Along(c, s0, s) && Enabled(c, s, a)
    ensures t == Apply(c, s, a) && Along(c, s0, t)
  {
    t := Take(c, s0, s, a);
    assert s.published <= t.published && s.received <= t.received;
  }

  // ----- the producer finishes what it is at

  lemma FinishAlloc(c: Config, s0: State, s: State) returns (t: State)
    requires c.Valid() && Along(c, s0, s) && s.prod.phase.PAlloc?
    ensures Along(c, s0, t) && t.prod.phase.PIdle? && t.prod.allocBufs >= s.prod.allocBufs
    ensures t.cons == s.cons && t.published == s.published
    decreases s.prod.phase.count
  {
    if s.prod.phase.count == 0 || s.prod.phase.ns == 0 {
      t := Go(c, s0, s, AllocEnd);
    } else {
      t := Go(c, s0, s, AllocOne);
      t := FinishAlloc(c, s0, t);
    }
  }

  lemma FinishTx(c: Config, s0: State, s: State) returns (t: State)
    requires c.Valid() && Along(c, s0, s) && s.prod.phase.PTx?
    ensures Along(c, s0, t) && t.prod.phase.PIdle? && t.cons == s.cons
    ensures t.prod.allocBufs == s.prod.allocBufs - s.prod.phase.n
    ensures |t.published| == |s.published| + s.prod.phase.n
    decreases s.prod.phase.n - s.prod.phase.i
  {
    if s.prod.phase.i < s.prod.phase.n {
      t := Go(c, s0, s, TxOne);
      t := FinishTx(c, s0, t);
    } else {
      HeldInMemory(c, s);
      t := Go(c, s0, s, TxPublish);
    }
  }

  /** Whatever the producer is doing, it can finish, and then publish all it holds. */
  lemma PublishAll(c: Config, s0: State, s: State) returns (t: State)
    requires c.Valid() && Along(c, s0, s)
    ensures Along(c, s0, t) && t.prod == Producer(0, [], PIdle) && t.cons == s.cons
    ensures |t.published| >= |s.published| + s.prod.allocBufs
  {
    t := s;
    if t.prod.phase.PAlloc? {
      t := FinishAlloc(c, s0, t);
    } else if t.prod.phase.PTx? {
      t := FinishTx(c, s0, t);
    }
    t := PublishHeld(c, s0, t);
  }

  lemma PublishHeld(c: Config, s0: State, s: State) returns (t: State)
    requires c.Valid() && Along(c, s0, s) && s.prod.phase.PIdle?
    ensures Along(c, s0, t) && t.prod == Producer(0, [], PIdle) && t.cons == s.cons
    ensures |t.published| == |s.published| + s.prod.allocBufs
  {
    t := s;
    if s.prod.allocBufs > 0 {
      SizeBounds(c);
      t := Go(c, s0, s, TxBegin(65535));
      t := FinishTx(c, s0, t);
    }
  }

  // ----- the consumer finishes what it is at

  lemma FinishRx(c: Config, s0: State, s: State) returns (t: State)
    requires c.Valid() && Along(c, s0, s) && s.cons.phase.CRx?
    ensures Along(c, s0, t) && t.cons.phase.CIdle? && t.prod == s.prod && t.published == s.published
    ensures t.released == s.released
    ensures |t.received| == |s.received| + Min(s.cons.phase.ns, s.cons.phase.count)
    decreases s.cons.phase.count
  {
    if s.cons.phase.ns == 0 || s.cons.phase.count == 0 {
      t := Go(c, s0, s, RxEnd);
    } else {
      SlotOfIndex(c, |s.received|);
      t := Go(c, s0, s, RxOne);
      t := FinishRx(c, s0, t);
    }
  }

  lemma FinishRefill(c: Config, s0: State, s: State) returns (t: State)
    requires c.Valid() && Along(c, s0, s) && s.cons.phase.CRefill?
    ensures Along(c, s0, t) && t.cons.phase.CIdle? && t.prod == s.prod && t.published == s.published
    ensures t.received == s.received && t.cons.last == s.cons.last
    ensures t.released == s.released + Wrap(s.cons.phase.head - s.head)
    decreases s.cons.phase.head - s.cons.phase.slot
  {
    if s.cons.phase.slot < s.cons.phase.head {
      t := RefillOnward(c, s0, s);
      t := FinishRefill(c, s0, t);
    } else {
      t := Go(c, s0, s, RefillEnd);
    }
  }

  lemma RefillOnward(c: Config, s0: State, s: State) returns (t: State)
    requires c.Valid() && Along(c, s0, s) && s.cons.phase.CRefill? && s.cons.phase.slot < s.cons.phase.head
    ensures Along(c, s0, t) && t == s.(desc := t.desc, cons := s.cons.(phase := CRefill(s.cons.phase.slot + 1, s.cons.phase.head)))
  {
    t := Go(c, s0, s, RefillOne);
  }

  lemma FinishConsumer(c: Config, s0: State, s: State) returns (t: State)
    requires c.Valid() && Along(c, s0, s)
    ensures Along(c, s0, t) && t.cons.phase.CIdle? && t.prod == s.prod && t.published == s.published
  {
    t := s;
    if t.cons.phase.CRx? {
      t := FinishRx(c, s0, t);
    } else if t.cons.phase.CRefill? {
      t := FinishRefill(c, s0, t);
    }
  }

  /** A consumer between calls can take everything that has been published. */
  lemma ReceiveAll(c: Config, s0: State, s: State) returns (t: State)
    requires c.Valid() && Along(c, s0, s) && s.cons.phase.CIdle?
    ensures Along(c, s0, t) && t.cons.phase.CIdle? && t.prod == s.prod && t.published == s.published
    ensures t.released == s.released && |t.received| == |t.published|
  {
    t := s;
    SizeBounds(c);
    if |s.received| < |s.published| {
      t := ReceiveSome(c, s0, s, 65535);
    }
  }

  lemma ReceiveSome(c: Config, s0: State, s: State, count: u16) returns (t: State)
    requires c.Valid() && Along(c, s0, s) && s.cons.phase.CIdle? && |s.received| < |s.published|
    ensures Along(c, s0, t) && t.cons.phase.CIdle? && t.prod == s.prod && t.published == s.published
    ensures t.released == s.released && |t.received| == Min(|s.received| + count, |t.published|)
  {
    UnreadExact(c, s);
    SizeBounds(c);
    t := Go(c, s0, s, RxBegin(count));
    t := FinishRx(c, s0, t);
  }

  /** A consumer between calls can give everything back, in either role. */
  lemma GiveBackAll(c: Config, s0: State, s: State) returns (t: State)
    requires c.Valid() && Along(c, s0, s) && s.cons.phase.CIdle?
    ensures Along(c, s0, t) && t.cons.phase.CIdle? && t.prod == s.prod && t.published == s.published
    ensures t.received == s.received && t.released == |t.received|
  {
    SizeBounds(c);
    if c.dir.S2M? {
      t := Go(c, s0, s, Release(65535));
      ReleaseExactIff(c, s, 65535);
    } else {
      RefillExact(c, s, 65535);
      t := Go(c, s0, s, RefillBegin(65535));
      t := FinishRefill(c, s0, t);
    }
  }

  /** Between calls on both sides, with nothing allocated, unread or not given back. */
  ghost predicate Empty(c: Config, s: State)
    requires c.Valid()
  {
    && Reachable(c, s) && s.prod == Producer(0, [], PIdle) && s.cons.phase.CIdle?
    && s.received == s.published && s.released == |s.received|
  }

  /**
   From every reachable state, whatever the two sides are doing, some continuation publishes
   everything allocated so far, receives it and gives it all back.
   */
  lemma CanEmpty(c: Config, s: State) returns (t: State)
    requires c.Valid() && Reachable(c, s)
    ensures Along(c, s, t) && Empty(c, t)
    ensures |t.published| >= |s.published| + s.prod.allocBufs
  {
    AlongStart(c, s);
    t := PublishAll(c, s, s);
    t := FinishConsumer(c, s, t);
    t := ReceiveAll(c, s, t);
    t := GiveBackAll(c, s, t);
  }

  /** A producer with nothing allocated and a free slot can publish one packet of any length and content. */
  lemma SendOne(c: Config, s0: State, s: State, len: nat, data: Payload) returns (t: State)
    requires c.Valid() && Along(c, s0, s) && s.prod == Producer(0, [], PIdle) && |s.published| < s.released + c.Size()
    ensures Along(c, s0, t) && t.prod == Producer(0, [], PIdle) && t.cons == s.cons
    ensures t.received == s.received && t.released == s.released
    ensures t.published == s.published + [Packet(len, data)]
  {
    t := FillOne(c, s0, s, len, data);
    t := Go(c, s0, t, TxBegin(1));
    t := Go(c, s0, t, TxOne);
    HeldInMemory(c, t);
    assert PacketsOf(t.mem, t.prod.held[..1]) == [Packet(len, data)];
    t := Go(c, s0, t, TxPublish);
  }

  lemma FillOne(c: Config, s0: State, s: State, len: nat, data: Payload) returns (t: State)
    requires c.Valid() && Along(c, s0, s) && s.prod == Producer(0, [], PIdle) && |s.published| < s.released + c.Size()
    ensures Along(c, s0, t) && t.prod.phase.PIdle? && t.prod.allocBufs == |t.prod.held| == 1 && t.prod.held[0].len == len
    ensures t.prod.held[0].data in t.mem && t.mem[t.prod.held[0].data] == data
    ensures t.cons == s.cons && t.received == s.received && t.released == s.released && t.published == s.published
  {
    FreeSlotsExact(c, s);
    t := Go(c, s0, s, AllocBegin(1, 1));
    t := Go(c, s0, t, AllocOne);
    t := Go(c, s0, t, AllocEnd);
    t := Go(c, s0, t, Write(0, len, data));
  }

  /** From every reachable state, any list of packets can be delivered next, in order, and all slots given back. */
  lemma {:induction false} CanDeliver(c: Config, s: State, packets: seq<Packet>) returns (t: State, before: seq<Packet>)
    requires c.Valid() && Reachable(c, s)
    ensures Along(c, s, t) && Empty(c, t) && s.published <= before && t.received == before + packets
    decreases |packets|
  {
    if packets == [] {
      t := CanEmpty(c, s);
      before := t.published;
    } else {
      var n := |packets| - 1;
      t, before := CanDeliver(c, s, packets[..n]);
      t := DeliverOne(c, s, t, packets[n]);
      LastPacket(before, packets);
    }
  }

  lemma LastPacket(before: seq<Packet>, packets: seq<Packet>)
    requires packets != []
    ensures before + packets[..|packets| - 1] + [packets[|packets| - 1]] == before + packets
  {
  }

  lemma DeliverOne(c: Config, s0: State, s: State, p: Packet) returns (t: State)
    requires c.Valid() && Along(c, s0, s) && Empty(c, s)
    ensures Along(c, s0, t) && Empty(c, t) && t.received == s.received + [p]
  {
    SizeBounds(c);
    t := SendOne(c, s0, s, p.len, p.data);
    t := ReceiveAll(c, s0, t);
    t := GiveBackAll(c, s0, t);
  }

  /** A reachable state in which a refill of one slot gives back two. */
  lemma ReleaseCanExceedCount(c: Config, s0: State) returns (s: State)
    requires c.Valid() && c.dir.S2M? && c.log2 >= 1 && Init(c, s0)
    ensures Reachable(c, s) && Enabled(c, s, Release(1))
    ensures |s.received| - s.released == 2 && Apply(c, s, Release(1)).released == s.released + 2
  {
    Pow2Monotone(1, c.log2);
    ReachInit(c, s0);
    AlongStart(c, s0);
    s := DeliverMany(c, s0, s0, 65535);
    s := SendOne(c, s0, s, 1, []);
    s := SendOne(c, s0, s, 1, []);
    s := ReceiveAll(c, s0, s);
    ReleaseExactIff(c, s, 1);
  }

  lemma {:induction false} DeliverMany(c: Config, s0: State, s: State, n: nat) returns (t: State)
    requires c.Valid() && Along(c, s0, s) && Empty(c, s)
    ensures Along(c, s0, t) && Empty(c, t) && |t.received| == |s.received| + n
  {
    t := s;
    if n > 0 {
      t := DeliverMany(c, s0, s, n - 1);
      t := DeliverOne(c, s0, t, Packet(1, []));
    }
  }
}
