/**
 What every run of the handshake keeps, when it completes, and what both sides then agree on.
 */
module HandshakeTheorems {
  import opened Arith
  import opened Basics
  import opened Layout
  import opened Handshake
  import opened HandshakeProofs

  predicate IsTraffic(a: Action) { a.MasterSends? || a.MasterRefills? }

  /** Handshake steps in a run: everything but ring traffic. */
  function Steps(actions: seq<Action>): nat {
    if actions == [] then 0
    else Steps(actions[..|actions| - 1]) + if IsTraffic(actions[|actions| - 1]) then 0 else 1
  }

  /** What the slave has put on the socket in a run, in order. */
  ghost function Sent(states: seq<System>, actions: seq<Action>): (ms: seq<Msg>)
    requires |states| == |actions| + 1
    requires forall i :: 0 <= i < |actions| ==> Enabled(states[i], actions[i])
    decreases |actions|
  {
    if actions == [] then []
    else
      var n := |actions| - 1;
      assert Enabled(states[n], actions[n]);
      Sent(states[..n + 1], actions[..n]) + if actions[n].SlaveWrite? then [states[n].slave.queue[0]] else []
  }

  lemma RunPrefix(w: Peers, states: seq<System>, actions: seq<Action>, n: nat)
    requires IsRun(w.slave, w.master, states, actions) && n <= |actions|
    ensures IsRun(w.slave, w.master, states[..n + 1], actions[..n])
  {
  }

  /** One step of either side moves the token exactly one place on. */
  lemma Step(w: Peers, s: System, ph: Phase, p: nat, a: Action) returns (ph': Phase, p': nat)
    requires w.Valid() && At(w, s, ph, p) && Enabled(s, a)
    ensures At(w, Apply(s, a), ph', p')
    ensures IsTraffic(a) ==> ph' == ph && p' == p
    ensures !IsTraffic(a) ==> Rank(w, ph', p') == Rank(w, ph, p) - 1
    ensures a.SlaveWrite? ==> ph.Ready? && s.slave.queue[0] == Message(w, p)
    ensures Written(ph', p') == if a.SlaveWrite? then Written(ph, p) + 1 else Written(ph, p)
  {
    ph', p' := ph, p;
    match a
    case SlaveRead => ph' := SlaveReadStep(w, s, ph, p);
    case SlaveWrite => SlaveWriteStep(w, s, ph, p); ph' := Asked; assert Rest(w, p)[0] == Message(w, p + 0);
    case MasterRead => MasterReadStep(w, s, ph, p); ph', p' := Answering, p + 1;
    case MasterWrite => MasterWriteStep(w, s, ph, p); ph' := Answered;
    case MasterSends(_, _) => MasterTrafficStep(w, s, ph, p, a);
    case MasterRefills(_, _, _) => MasterTrafficStep(w, s, ph, p, a);
  }

  /** Messages the slave has written. */
  function Written(ph: Phase, p: nat): nat { if ph.Asked? then p + 1 else p }

  lemma SentNext(w: Peers, p: nat)
    requires p < w.Length()
    ensures Rest(w, 0)[..p + 1] == Rest(w, 0)[..p] + [Message(w, p)]
  {
    assert Rest(w, 0)[p] == Message(w, 0 + p);
  }

  /** Where a run ends, how many steps are left, and what has been sent. */
  lemma {:induction false} RunEnds(w: Peers, states: seq<System>, actions: seq<Action>) returns (ph: Phase, p: nat)
    requires w.Valid() && IsRun(w.slave, w.master, states, actions)
    ensures At(w, states[|actions|], ph, p)
    ensures Steps(actions) + Rank(w, ph, p) == 4 * w.Length() + 1
    ensures Written(ph, p) <= w.Length() && Sent(states, actions) == Rest(w, 0)[..Written(ph, p)]
    decreases |actions|
  {
    if actions == [] {
      StartAt(w);
      ph, p := Greeting, 0;
    } else {
      var n := |actions| - 1;
      RunPrefix(w, states, actions, n);
      var ph0, p0 := RunEnds(w, states[..n + 1], actions[..n]);
      assert states[..n + 1][n] == states[n];
      ph, p := Step(w, states[n], ph0, p0, actions[n]);
      if actions[n].SlaveWrite? {
        SentNext(w, p0);
      }
    }
  }

  function Count(b: bool): nat { if b then 1 else 0 }

  predicate OneToken(s: System) {
    |s.toSlave| + |s.toMaster| + Count(CanWrite(s.slave)) + Count(CanWrite(s.master)) == Count(!s.slave.connected)
  }

  lemma OneTokenAt(w: Peers, s: System, ph: Phase, p: nat)
    requires At(w, s, ph, p)
    ensures OneToken(s)
  {
    match ph
    case Greeting =>
    case Ready =>
    case Asked =>
    case Answering =>
    case Answered =>
    case Done =>
  }

  /**
   Lock step: at every moment at most one message is in flight or may be sent, counting both
   directions, and exactly one until the slave is connected.
   */
  lemma LockStep(w: Peers, states: seq<System>, actions: seq<Action>)
    requires w.Valid() && IsRun(w.slave, w.master, states, actions)
    ensures OneToken(states[|actions|])
  {
    var ph, p := RunEnds(w, states, actions);
    OneTokenAt(w, states[|actions|], ph, p);
  }

  /** The slave's messages leave in the order INIT, regions, S2M rings, M2S rings, CONNECT. */
  lemma SentInOrder(w: Peers, states: seq<System>, actions: seq<Action>, i: nat)
    requires w.Valid() && IsRun(w.slave, w.master, states, actions)
    requires i < |Sent(states, actions)|
    ensures |Sent(states, actions)| <= w.Length() && Sent(states, actions)[i] == Message(w, i)
  {
    var ph, p := RunEnds(w, states, actions);
    assert Rest(w, 0)[i] == Message(w, 0 + i);
  }

  /** The entry a message announces is the next one of the master's array, so growing by one makes room for it. */
  ghost predicate NextEntry(c: Conn, m: Msg) {
    match m
    case AddRegion(index, _) => index == |c.regions|
    case AddRing(s2m, index, _) => index == |if s2m then c.rx else c.tx|
    case _ => true
  }

  /** In every run, no message makes the master write past the array it has just grown. */
  lemma WritesInBounds(w: Peers, states: seq<System>, actions: seq<Action>)
    requires w.Valid() && IsRun(w.slave, w.master, states, actions) && states[|actions|].toMaster != []
    ensures NextEntry(states[|actions|].master, states[|actions|].toMaster[0])
  {
    var ph, p := RunEnds(w, states, actions);
  }

  /** Both sides hold the same regions and, ring by ring, the same places and sizes. */
  ghost predicate Agreed(w: Peers, s: System) {
    && s.master.regions == s.slave.regions == w.Regions()
    && s.master.rx == s.slave.tx == w.S2MQueues()
    && s.master.tx == s.slave.rx == w.M2SQueues()
  }

  lemma AgreedAt(w: Peers, s: System, ph: Phase, p: nat)
    requires At(w, s, ph, p)
    ensures s.slave.connected ==> s.master.connected
    ensures s.master.connected ==> Agreed(w, s) && w.Fits()
  {
    if p == w.Length() && !ph.Greeting? {
      var m := s.master;
      assert m.regions == w.Regions();
      assert m.rx == w.S2MQueues() && m.tx == w.M2SQueues();
    }
  }

  /**
   Once the master is connected, and so whenever the slave is, both sides hold the same regions,
   and each ring of one side is the same ring, at the same place and of the same size, as the
   ring of that number in the other direction on the other side.
   */
  lemma Agreement(w: Peers, states: seq<System>, actions: seq<Action>)
    requires w.Valid() && IsRun(w.slave, w.master, states, actions)
    ensures states[|actions|].slave.connected ==> states[|actions|].master.connected
    ensures states[|actions|].master.connected ==> Agreed(w, states[|actions|]) && w.Fits()
  {
    var ph, p := RunEnds(w, states, actions);
    AgreedAt(w, states[|actions|], ph, p);
  }

  /**
   The slave clears all ring indices again when CONNECTED arrives.  Whatever the master did with
   the rings meanwhile, that clears nothing: every index still is zero.
   */
  lemma LateZeroingLosesNothing(w: Peers, states: seq<System>, actions: seq<Action>)
    requires w.Valid() && IsRun(w.slave, w.master, states, actions) && |actions| > 0
    requires actions[|actions| - 1].SlaveRead? && states[|actions|].slave.connected
    ensures states[|actions|].shared == states[|actions| - 1].shared
    ensures forall k :: k in states[|actions|].shared ==> states[|actions|].shared[k] == Indices(0, 0)
  {
    var n := |actions| - 1;
    RunPrefix(w, states, actions, n);
    var ph0, p0 := RunEnds(w, states[..n + 1], actions[..n]);
    var ph, p := RunEnds(w, states, actions);
    assert states[..n + 1][n] == states[n];
    var ph1, p1 := Step(w, states[n], ph0, p0, actions[n]);
    assert ph0.Answered?;
  }

  lemma RankAt(w: Peers, s: System, ph: Phase, p: nat)
    requires At(w, s, ph, p)
    ensures Rank(w, ph, p) >= 0
    ensures Rank(w, ph, p) == 0 <==> s.slave.connected
  {
    match ph
    case Greeting =>
    case Ready =>
    case Asked =>
    case Answering =>
    case Answered =>
    case Done =>
  }

  /** A run takes at most 4 * Length + 1 handshake steps, and it has taken them all exactly when the slave is connected. */
  lemma StepsToConnect(w: Peers, states: seq<System>, actions: seq<Action>)
    requires w.Valid() && IsRun(w.slave, w.master, states, actions)
    ensures Steps(actions) <= 4 * w.Length() + 1
    ensures Steps(actions) == 4 * w.Length() + 1 <==> states[|actions|].slave.connected
  {
    var ph, p := RunEnds(w, states, actions);
    RankAt(w, states[|actions|], ph, p);
  }

  /** Which handshake step can happen next. */
  function Next(ph: Phase): Action
    requires !ph.Done?
  {
    match ph
    case Greeting => SlaveRead
    case Ready => SlaveWrite
    case Asked => MasterRead
    case Answering => MasterWrite
    case Answered => SlaveRead
  }

  lemma NextEnabled(w: Peers, s: System, ph: Phase, p: nat)
    requires w.Valid() && At(w, s, ph, p) && !ph.Done? && w.Fits()
    ensures Enabled(s, Next(ph))
  {
    if ph.Asked? {
      MasterReceives(w, p);
    } else if ph.Answered? {
      HeadersReady(w, s.slave);
    }
  }

  /** With enough rings on the master no run gets stuck: every run can be continued until the slave is connected. */
  lemma {:induction false} Completes(w: Peers, states: seq<System>, actions: seq<Action>)
    returns (more: seq<System>, steps: seq<Action>)
    requires w.Valid() && w.Fits() && IsRun(w.slave, w.master, states, actions)
    ensures states <= more && actions <= steps
    ensures IsRun(w.slave, w.master, more, steps) && more[|steps|].slave.connected
    decreases 4 * w.Length() + 1 - Steps(actions)
  {
    StepsToConnect(w, states, actions);
    if states[|actions|].slave.connected {
      more, steps := states, actions;
    } else {
      var ph, p := RunEnds(w, states, actions);
      NextEnabled(w, states[|actions|], ph, p);
      var a := Next(ph);
      var states' := states + [Apply(states[|actions|], a)];
      var actions' := actions + [a];
      assert actions'[..|actions|] == actions;
      StepsToConnect(w, states', actions');
      more, steps := Completes(w, states', actions');
    }
  }

  /** The handshake can complete if and only if the master was created with at least the slave's number of rings each way. */
  lemma CompletesIff(w: Peers)
    requires w.Valid()
    ensures w.Fits() <==>
            exists states: seq<System>, actions: seq<Action> ::
              IsRun(w.slave, w.master, states, actions) && states[|actions|].slave.connected
  {
    if w.Fits() {
      assert IsRun(w.slave, w.master, [Start(w.slave, w.master)], []);
      var more, steps := Completes(w, [Start(w.slave, w.master)], []);
    }
    forall states: seq<System>, actions: seq<Action> |
      IsRun(w.slave, w.master, states, actions) && states[|actions|].slave.connected
      ensures w.Fits()
    {
      Agreement(w, states, actions);
    }
  }

  /** A slave with two rings each way never gets connected to a master created with one. */
  lemma TwoRingsToOne(log2: nat, bufferSize: nat, states: seq<System>, actions: seq<Action>)
    requires var w := Peers(RunArgs(2, 2, log2, bufferSize), RunArgs(1, 1, log2, bufferSize));
             IsRun(w.slave, w.master, states, actions)
    ensures !states[|actions|].slave.connected
  {
    CompletesIff(Peers(RunArgs(2, 2, log2, bufferSize), RunArgs(1, 1, log2, bufferSize)));
  }

  // ----- what single messages do

  /** Negotiation takes, of each limit, the smaller one of both sides', and the slave's own buffer size. */
  lemma NegotiateLimits(args: RunArgs, h: Msg)
    requires h.Hello?
    ensures var run := Negotiate(args, h);
            && run.s2mRings <= args.s2mRings && run.s2mRings <= h.maxS2M + 1 && (run.s2mRings == args.s2mRings || run.s2mRings == h.maxS2M + 1)
            && run.m2sRings <= args.m2sRings && run.m2sRings <= h.maxM2S + 1 && (run.m2sRings == args.m2sRings || run.m2sRings == h.maxM2S + 1)
            && run.log2 <= args.log2 && run.log2 <= h.maxLog2 && (run.log2 == args.log2 || run.log2 == h.maxLog2)
            && run.bufferSize == args.bufferSize
  {
  }

  /** The HELLO of this library leaves a slave all it was created with: fewer than 256 rings each way, at most 2^14 descriptors. */
  lemma NegotiateKeeps(args: RunArgs)
    requires args.s2mRings < 256 && args.m2sRings < 256 && args.log2 <= 14
    ensures Negotiate(args, HelloMsg()) == args
  {
    NegotiateLimits(args, HelloMsg());
  }

  /** Only version 512, that is 2.0, is spoken. */
  lemma VersionChecked(c: Conn, shared: Shared, h: Msg, version: nat)
    requires h.Hello?
    ensures Receive(c, shared, h).Some? <==> h.minVersion <= 512 <= h.maxVersion
    ensures Receive(c, shared, Init(version)).Some? <==> version == 512
  {
  }

  /** The connection has a queue on the ring at this offset. */
  ghost predicate Uses(c: Conn, offset: nat) {
    || (exists i :: 0 <= i < |c.rx| && c.rx[i].Set? && c.rx[i].value.offset == offset)
    || (exists i :: 0 <= i < |c.tx| && c.tx[i].Set? && c.tx[i].value.offset == offset)
  }

  /**
   CONNECT and CONNECTED, whatever the rings hold: they connect exactly when every queue names a ring
   that has a header, and then clear the indices of just these rings.
   */
  lemma ConnectClears(c: Conn, shared: Shared, m: Msg)
    requires m.Connect? || m.Connected?
    ensures Receive(c, shared, m).Some? <==> RingsReady(shared, c.rx) && RingsReady(shared, c.tx)
    ensures Receive(c, shared, m).Some? ==>
              var (c', shared') := Receive(c, shared, m).value;
              && c'.connected && c'.write && shared'.Keys == shared.Keys
              && c'.queue == (if m.Connect? then c.queue + [Connected] else c.queue)
              && forall k :: k in shared ==> shared'[k] == if Uses(c, k) then Indices(0, 0) else shared[k]
  {
    forall k | k in shared ensures k in Offsets(c.rx) + Offsets(c.tx) <==> Uses(c, k) {
    }
  }

  /** Once connected, both sides have the slave's rings where the slave laid them out, and its two regions. */
  lemma AgreedValues(w: Peers, states: seq<System>, actions: seq<Action>, t: RingType, i: nat)
    requires w.Valid() && w.slave.log2 <= 14 && IsRun(w.slave, w.master, states, actions) && states[|actions|].slave.connected
    requires i < if t.S2M? then w.slave.s2mRings else w.slave.m2sRings
    ensures var s, q := states[|actions|], Set(Queue(0, RingOffset(w.slave, t, i), w.slave.log2));
            && s.master.regions == s.slave.regions == [Set(w.slave.RingRegionSize()), Set(w.slave.BufferRegionSize())]
            && |s.slave.tx| == |s.master.rx| == w.slave.s2mRings && |s.slave.rx| == |s.master.tx| == w.slave.m2sRings
            && (if t.S2M? then s.slave.tx[i] == s.master.rx[i] == q else s.slave.rx[i] == s.master.tx[i] == q)
  {
    Agreement(w, states, actions);
    NegotiateKeeps(w.slave);
  }
}
