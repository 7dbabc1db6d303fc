/**
 Every run of the handshake: lock step, message order, agreement, completion.

 The machine is deterministic up to what the master does with rings it cannot use yet, so the
 invariant names every reachable state: how many messages the master has handled and where
 the one token of the conversation is.
 */
module HandshakeProofs {
  import opened Arith
  import opened Basics
  import opened Layout
  import opened Handshake

  /** Slave and master arguments; ring counts are bytes. */
  datatype Peers = Peers(slave: RunArgs, master: RunArgs) {
    ghost predicate Valid() { slave.s2mRings < 256 && slave.m2sRings < 256 }
    function Run(): RunArgs { Negotiate(slave, HelloMsg()) }
    function S2MQueues(): seq<Slot<Queue>> { Queues(Run(), S2M, Run().s2mRings) }
    function M2SQueues(): seq<Slot<Queue>> { Queues(Run(), M2S, Run().m2sRings) }
    function Regions(): seq<Slot<nat>> { [Set(Run().RingRegionSize()), Set(Run().BufferRegionSize())] }
    function Length(): nat { 4 + Run().s2mRings + Run().m2sRings }
    function Ready(): Conn { InitRegionsAndQueues(Fresh(slave), Run()) }
    function Headers(): Shared { RingHeaders(Ready()) }
    /** The master was created with at least as many rings. */
    ghost predicate Fits() {
      Run().s2mRings <= master.s2mRings && Run().m2sRings <= master.m2sRings
    }
  }

  /** The order of the conversation, message by message. */
  function Message(w: Peers, p: nat): Msg
    requires p < w.Length()
  {
    var a := w.Run();
    if p == 0 then Init(MEMIF_VERSION)
    else if p == 1 then AddRegion(0, a.RingRegionSize())
    else if p == 2 then AddRegion(1, a.BufferRegionSize())
    else if p < 3 + a.s2mRings then AddRing(true, p - 3, Queue(0, RingOffset(a, S2M, p - 3), a.log2))
    else if p < 3 + a.s2mRings + a.m2sRings then
      AddRing(false, p - 3 - a.s2mRings, Queue(0, RingOffset(a, M2S, p - 3 - a.s2mRings), a.log2))
    else Connect
  }

  function Rest(w: Peers, p: nat): (ms: seq<Msg>)
    requires p <= w.Length()
    ensures |ms| == w.Length() - p
    ensures forall i :: 0 <= i < |ms| ==> ms[i] == Message(w, p + i)
    decreases w.Length() - p
  {
    if p == w.Length() then [] else [Message(w, p)] + Rest(w, p + 1)
  }

  lemma RestTail(w: Peers, p: nat)
    requires p < w.Length()
    ensures Rest(w, p)[1..] == Rest(w, p + 1)
  {
    forall i | 0 <= i < w.Length() - p - 1
      ensures Rest(w, p)[1..][i] == Rest(w, p + 1)[i]
    {
      assert Rest(w, p)[1..][i] == Message(w, p + (i + 1));
    }
  }

  /** What HELLO makes the slave queue is INIT, the regions, S2M rings, M2S rings, CONNECT. */
  lemma ScriptOrder(w: Peers)
    ensures Script(w.Ready()) == Rest(w, 0)
  {
    var c := w.Ready();
    assert c.regions == w.Regions();
    var s := Script(c);
    assert |s| == w.Length();
    forall i | 0 <= i < |s| ensures s[i] == Rest(w, 0)[i] {
      assert Rest(w, 0)[i] == Message(w, 0 + i);
    }
  }

  function Clamp(x: int, hi: nat): nat { if x < 0 then 0 else if x > hi then hi else x }

  function Regions(p: nat): nat { Clamp(p - 1, 2) }
  function S2MCount(w: Peers, p: nat): nat { Clamp(p - 3, w.Run().s2mRings) }
  function M2SCount(w: Peers, p: nat): nat { Clamp(p - 3 - w.Run().s2mRings, w.Run().m2sRings) }

  /** The master after p messages: the arrays hold exactly the entries announced so far. */
  function Master(w: Peers, p: nat, queue: seq<Msg>): Conn
  {
    Conn(w.master, queue, queue != [], w.Regions()[..Regions(p)],
         w.S2MQueues()[..S2MCount(w, p)], w.M2SQueues()[..M2SCount(w, p)], p == w.Length())
  }

  function Slave(w: Peers, p: nat, write: bool, connected: bool): Conn
    requires p <= w.Length()
  {
    w.Ready().(queue := Rest(w, p), write := write, connected := connected)
  }

  function Reply(w: Peers, p: nat): Msg { if p == w.Length() then Connected else Ack }

  /** Who holds the token. */
  datatype Phase = Greeting | Ready | Asked | Answering | Answered | Done

  ghost predicate PhaseOk(w: Peers, ph: Phase, p: nat) {
    match ph
    case Greeting => p == 0
    case Ready => p < w.Length()
    case Asked => p < w.Length()
    case Answering => 1 <= p <= w.Length()
    case Answered => 1 <= p <= w.Length()
    case Done => p == w.Length()
  }

  ghost function Shape(w: Peers, ph: Phase, p: nat): System
    requires PhaseOk(w, ph, p)
  {
    match ph
    case Greeting => Start(w.slave, w.master)
    case Ready => System(Slave(w, p, true, false), Master(w, p, []), [], [], w.Headers())
    case Asked => System(Slave(w, p + 1, false, false), Master(w, p, []), [], [Message(w, p)], w.Headers())
    case Answering => System(Slave(w, p, false, false), Master(w, p, [Reply(w, p)]), [], [], w.Headers())
    case Answered => System(Slave(w, p, false, false), Master(w, p, []), [Reply(w, p)], [], w.Headers())
    case Done => System(Slave(w, p, true, true), Master(w, p, []), [], [], w.Headers())
  }

  /** The master has accepted every ring announced so far. */
  ghost predicate Accepted(w: Peers, p: nat) {
    S2MCount(w, p) <= w.master.s2mRings && M2SCount(w, p) <= w.master.m2sRings
  }

  ghost predicate At(w: Peers, s: System, ph: Phase, p: nat) {
    PhaseOk(w, ph, p) && s == Shape(w, ph, p) && Accepted(w, p)
  }

  ghost predicate Accepts(w: Peers, p: nat)
    requires p < w.Length()
  {
    match Message(w, p)
    case AddRing(s2m, i, _) => i < if s2m then w.master.s2mRings else w.master.m2sRings
    case _ => true
  }

  lemma GrowNext<T>(whole: seq<Slot<T>>, i: nat, v: T)
    requires i < |whole| && whole[i] == Set(v)
    ensures Grow(whole[..i], i, v) == Some(whole[..i + 1])
  {
    assert (whole[..i] + [Unset])[i := Set(v)] == whole[..i + 1];
  }

  /** The queues of either side name rings whose headers exist, and all headers are zero. */
  lemma HeadersReady(w: Peers, c: Conn)
    ensures RingsReady(w.Headers(), w.S2MQueues()) && RingsReady(w.Headers(), w.M2SQueues())
    ensures ZeroRings(w.Headers(), c) == w.Headers()
  {
    var n := w.Ready();
    forall i | 0 <= i < |n.tx| ensures n.tx[i].value.offset in w.Headers() {
      assert n.tx[i].value.offset in Offsets(n.tx);
    }
    forall i | 0 <= i < |n.rx| ensures n.rx[i].value.offset in w.Headers() {
      assert n.rx[i].value.offset in Offsets(n.rx);
    }
  }

  lemma MasterReceivesRegion(w: Peers, p: nat)
    requires 1 <= p < 3
    ensures Receive(Master(w, p, []), w.Headers(), Message(w, p)) == Some((Master(w, p + 1, [Ack]), w.Headers()))
  {
    var m := Master(w, p, []);
    GrowNext(w.Regions(), p - 1, w.Regions()[p - 1].value);
    assert m.queue + [Ack] == [Ack];
    assert w.S2MQueues()[..0] == [] && w.M2SQueues()[..0] == [];
  }

  lemma MasterReceivesS2M(w: Peers, p: nat)
    requires w.Valid() && 3 <= p < 3 + w.Run().s2mRings
    ensures Receive(Master(w, p, []), w.Headers(), Message(w, p)) ==
            if p - 3 < w.master.s2mRings then Some((Master(w, p + 1, [Ack]), w.Headers())) else None
  {
    var m := Master(w, p, []);
    var m' := Master(w, p + 1, [Ack]);
    GrowNext(w.S2MQueues(), p - 3, w.S2MQueues()[p - 3].value);
    assert m.queue + [Ack] == [Ack];
    assert m.tx == m'.tx && m.regions == m'.regions;
  }

  lemma MasterReceivesM2S(w: Peers, p: nat)
    requires w.Valid() && 3 <= p - w.Run().s2mRings < 3 + w.Run().m2sRings
    ensures Receive(Master(w, p, []), w.Headers(), Message(w, p)) ==
            if p - 3 - w.Run().s2mRings < w.master.m2sRings then Some((Master(w, p + 1, [Ack]), w.Headers())) else None
  {
    var m := Master(w, p, []);
    var i := p - 3 - w.Run().s2mRings;
    GrowNext(w.M2SQueues(), i, w.M2SQueues()[i].value);
    assert m.queue + [Ack] == [Ack];
  }

  lemma MasterReceivesConnect(w: Peers)
    ensures var p := w.Length() - 1;
            Receive(Master(w, p, []), w.Headers(), Message(w, p)) == Some((Master(w, p + 1, [Connected]), w.Headers()))
  {
    var m := Master(w, w.Length() - 1, []);
    HeadersReady(w, m);
    assert m.rx == w.S2MQueues() && m.tx == w.M2SQueues();
    assert m.queue + [Connected] == [Connected];
  }

  /** Handling message p takes the master from p to p + 1 messages, unless it refuses the ring. */
  lemma MasterReceives(w: Peers, p: nat)
    requires w.Valid() && p < w.Length() && Accepted(w, p)
    ensures Receive(Master(w, p, []), w.Headers(), Message(w, p)) ==
            if Accepts(w, p) then Some((Master(w, p + 1, [Reply(w, p + 1)]), w.Headers())) else None
    ensures Accepts(w, p) <==> Accepted(w, p + 1)
  {
    if p == 0 {
      assert Master(w, 0, []).queue + [Ack] == [Ack];
    } else if p < 3 {
      MasterReceivesRegion(w, p);
    } else if p < 3 + w.Run().s2mRings {
      MasterReceivesS2M(w, p);
    } else if p < w.Length() - 1 {
      MasterReceivesM2S(w, p);
    } else {
      MasterReceivesConnect(w);
    }
  }

  lemma StartAt(w: Peers)
    requires w.Valid()
    ensures At(w, Start(w.slave, w.master), Greeting, 0)
  {
  }

  lemma SlaveReadStep(w: Peers, s: System, ph: Phase, p: nat) returns (ph': Phase)
    requires w.Valid() && At(w, s, ph, p) && Enabled(s, SlaveRead)
    ensures At(w, Apply(s, SlaveRead), ph', p) && Rank(w, ph', p) == Rank(w, ph, p) - 1
  {
    if ph.Greeting? {
      ph' := Ready;
      GreetingStep(w);
    } else {
      ph' := if p == w.Length() then Done else Ready;
      AnsweredStep(w, p);
    }
  }

  /** HELLO arrives: everything is queued and INIT may go. */
  lemma GreetingStep(w: Peers)
    requires w.Valid()
    ensures Enabled(Shape(w, Greeting, 0), SlaveRead) && Apply(Shape(w, Greeting, 0), SlaveRead) == Shape(w, Ready, 0)
  {
    ScriptOrder(w);
    assert Script(w.Ready()) == [] + Script(w.Ready());
    assert map[] + w.Headers() == w.Headers();
    assert [HelloMsg()][1..] == [];
    assert Receive(Fresh(w.slave), map[], HelloMsg()) == Some((Slave(w, 0, true, false), w.Headers()));
  }

  /** A reply arrives: the next message may go, or the slave is connected. */
  lemma AnsweredStep(w: Peers, p: nat)
    requires w.Valid() && PhaseOk(w, Answered, p)
    ensures var s := Shape(w, Answered, p);
            Enabled(s, SlaveRead) && Apply(s, SlaveRead) == Shape(w, if p == w.Length() then Done else Ready, p)
  {
    HeadersReady(w, Slave(w, p, false, false));
    assert [Reply(w, p)][1..] == [];
  }

  lemma SlaveWriteStep(w: Peers, s: System, ph: Phase, p: nat)
    requires w.Valid() && At(w, s, ph, p) && Enabled(s, SlaveWrite)
    ensures ph.Ready? && At(w, Apply(s, SlaveWrite), Asked, p)
  {
    if ph.Ready? {
      RestTail(w, p);
      assert Rest(w, p)[0] == Message(w, p + 0);
    }
  }

  lemma MasterReadStep(w: Peers, s: System, ph: Phase, p: nat)
    requires w.Valid() && At(w, s, ph, p) && Enabled(s, MasterRead)
    ensures ph.Asked? && Accepts(w, p) && At(w, Apply(s, MasterRead), Answering, p + 1)
  {
    MasterReceives(w, p);
    assert [Message(w, p)][1..] == [];
  }

  lemma MasterWriteStep(w: Peers, s: System, ph: Phase, p: nat)
    requires w.Valid() && At(w, s, ph, p) && Enabled(s, MasterWrite)
    ensures ph.Answering? && At(w, Apply(s, MasterWrite), Answered, p)
  {
    if ph.Answering? {
      assert [Reply(w, p)][1..] == [];
    }
  }

  /** Traffic on the master's side before the slave is connected changes no ring. */
  lemma MasterTrafficStep(w: Peers, s: System, ph: Phase, p: nat, a: Action)
    requires w.Valid() && At(w, s, ph, p) && Enabled(s, a) && (a.MasterSends? || a.MasterRefills?)
    ensures Apply(s, a) == s
  {
    assert Wrap(0) == 0;
    assert s.shared[a.k] == Indices(0, 0);
    assert s.shared[a.k := Indices(0, 0)] == s.shared;
  }

  /** How many handshake steps are left. */
  function Rank(w: Peers, ph: Phase, p: nat): int {
    4 * (w.Length() - p) +
    match ph
    case Greeting => 1
    case Ready => 0
    case Asked => -1
    case Answering => 2
    case Answered => 1
    case Done => 0
  }
}
