/**
 The memif control handshake as a two-party state machine.

 The slave answers HELLO by queueing INIT, one ADD_REGION per region, one ADD_RING per ring
 and CONNECT.  A message leaves a queue only while the connection's write flag is set, and
 sending clears the flag; receiving anything sets it.  The master answers each message with
 ACK, and CONNECT with CONNECTED.
 */
module Handshake {
  import opened Arith
  import opened Basics
  import opened Layout
  import RingMachine

  const MEMIF_VERSION: nat := 512 // major 2, minor 0
  const MAX_RING: nat := 255      // MEMIF_MAX_S2M_RING and MEMIF_MAX_M2S_RING
  const MAX_REGION: nat := 255
  const MAX_LOG2: nat := 14

  /** An array element after realloc: not written yet, or set by a message. */
  datatype Slot<T> = Unset | Set(value: T)

  datatype Queue = Queue(region: nat, offset: nat, log2: nat)

  datatype Msg =
    | Ack
    | Hello(minVersion: nat, maxVersion: nat, maxS2M: nat, maxM2S: nat, maxLog2: nat)
    | Init(version: nat)
    | AddRegion(index: nat, size: nat)
    | AddRing(s2m: bool, ring: nat, queue: Queue)
    | Connect
    | Connected

  /** memif_connection_t, as far as the handshake uses it. */
  datatype Conn = Conn(
    args: RunArgs, queue: seq<Msg>, write: bool,
    regions: seq<Slot<nat>>, rx: seq<Slot<Queue>>, tx: seq<Slot<Queue>>, connected: bool)

  /** head and tail of a ring whose cookie has been written. */
  datatype Indices = Indices(head: u16, tail: u16)

  /** Ring headers in region 0, by offset. */
  type Shared = map<nat, Indices>

  function HelloMsg(): Msg { Hello(MEMIF_VERSION, MEMIF_VERSION, MAX_RING, MAX_RING, MAX_LOG2) }

  /** memif_msg_receive_hello: run arguments are the smaller of both sides' limits. */
  function Negotiate(args: RunArgs, h: Msg): RunArgs
    requires h.Hello?
  {
    RunArgs(Min(h.maxS2M + 1, args.s2mRings), Min(h.maxM2S + 1, args.m2sRings), Min(h.maxLog2, args.log2), args.bufferSize)
  }

  /** memif_init_queues: the queues of `count` rings of one type. */
  function Queues(a: RunArgs, t: RingType, count: nat): (qs: seq<Slot<Queue>>)
    ensures |qs| == count
    ensures forall i :: 0 <= i < count ==> qs[i] == Set(Queue(0, RingOffset(a, t, i), a.log2))
  {
    if count == 0 then [] else Queues(a, t, count - 1) + [Set(Queue(0, RingOffset(a, t, count - 1), a.log2))]
  }

  /** memif_init_regions_and_queues on the slave. */
  function InitRegionsAndQueues(c: Conn, a: RunArgs): Conn {
    c.(regions := c.regions + [Set(a.RingRegionSize()), Set(a.BufferRegionSize())],
       tx := Queues(a, S2M, a.s2mRings), rx := Queues(a, M2S, a.m2sRings))
  }

  function Offsets(qs: seq<Slot<Queue>>): set<nat> {
    set i | 0 <= i < |qs| && qs[i].Set? :: qs[i].value.offset
  }

  function HeadersAt(offsets: set<nat>): Shared { map k | k in offsets :: Indices(0, 0) }

  /** The ring headers the slave writes for its queues. */
  function RingHeaders(c: Conn): Shared { HeadersAt(Offsets(c.tx) + Offsets(c.rx)) }

  function EnqRegions(regions: seq<Slot<nat>>, count: nat): (ms: seq<Msg>)
    requires count <= |regions|
    ensures |ms| == count
    ensures forall i :: 0 <= i < count ==> ms[i] == AddRegion(i, if regions[i].Set? then regions[i].value else 0)
  {
    if count == 0 then []
    else EnqRegions(regions, count - 1) +
         [AddRegion(count - 1, if regions[count - 1].Set? then regions[count - 1].value else 0)]
  }

  function EnqRings(qs: seq<Slot<Queue>>, s2m: bool, count: nat): (ms: seq<Msg>)
    requires count <= |qs|
    ensures |ms| == count
    ensures forall i :: 0 <= i < count ==> ms[i] == AddRing(s2m, i, if qs[i].Set? then qs[i].value else Queue(0, 0, 0))
  {
    if count == 0 then []
    else EnqRings(qs, s2m, count - 1) +
         [AddRing(s2m, count - 1, if qs[count - 1].Set? then qs[count - 1].value else Queue(0, 0, 0))]
  }

  /** Everything the slave queues on HELLO, in order. */
  function Script(c: Conn): seq<Msg> {
    [Init(MEMIF_VERSION)] + EnqRegions(c.regions, |c.regions|) + EnqRings(c.tx, true, |c.tx|)
    + EnqRings(c.rx, false, |c.rx|) + [Connect]
  }

  /** Grow by one element and write the one at `index`; past the end there is no such element. */
  function Grow<T>(s: seq<Slot<T>>, index: nat, v: T): Option<seq<Slot<T>>> {
    if index > |s| then None else Some((s + [Unset])[index := Set(v)])
  }

  ghost predicate RingsReady(shared: Shared, qs: seq<Slot<Queue>>) {
    forall i :: 0 <= i < |qs| ==> qs[i].Set? && qs[i].value.region == 0 && qs[i].value.offset in shared
  }

  function Zeroed(shared: Shared, offsets: set<nat>): Shared {
    map k | k in shared :: if k in offsets then Indices(0, 0) else shared[k]
  }

  /** memif_connect1: the indices of all rings of the connection go to zero. */
  function ZeroRings(shared: Shared, c: Conn): Shared { Zeroed(shared, Offsets(c.rx) + Offsets(c.tx)) }

  /**
   memif_msg_receive on a connection and the ring headers.  None is an error return, after
   which the connection is closed.
   */
  ghost function Receive(c: Conn, shared: Shared, m: Msg): Option<(Conn, Shared)> {
    match m
    case Ack => Some((c.(write := true), shared))
    case Hello(lo, hi, _, _, _) =>
      if lo > MEMIF_VERSION || hi < MEMIF_VERSION then None
      else
        var c' := InitRegionsAndQueues(c, Negotiate(c.args, m));
        Some((c'.(queue := c'.queue + Script(c'), write := true), shared + RingHeaders(c')))
    case Init(version) =>
      if version != MEMIF_VERSION then None
      else Some((c.(queue := c.queue + [Ack], write := true), shared))
    case AddRegion(index, size) =>
      if index > MAX_REGION then None
      else
        (match Grow(c.regions, index, size)
         case None => None
         case Some(rs) => Some((c.(regions := rs, queue := c.queue + [Ack], write := true), shared)))
    case AddRing(s2m, index, q) =>
      if index > MAX_RING || index >= (if s2m then c.args.s2mRings else c.args.m2sRings) then None
      else
        (match Grow(if s2m then c.rx else c.tx, index, q)
         case None => None
         case Some(qs) =>
           var c' := if s2m then c.(rx := qs) else c.(tx := qs);
           Some((c'.(queue := c.queue + [Ack], write := true), shared)))
    case Connect =>
      if !RingsReady(shared, c.rx) || !RingsReady(shared, c.tx) then None
      else Some((c.(connected := true, queue := c.queue + [Connected], write := true), ZeroRings(shared, c)))
    case Connected =>
      if !RingsReady(shared, c.rx) || !RingsReady(shared, c.tx) then None
      else Some((c.(connected := true, write := true), ZeroRings(shared, c)))
  }

  predicate CanWrite(c: Conn) { c.write && |c.queue| > 0 }

  /** memif_conn_fd_write_ready: what it leaves behind; the message sent is the head of the queue. */
  function AfterWrite(c: Conn): Conn
    requires CanWrite(c)
  {
    c.(queue := c.queue[1..], write := false)
  }

  datatype System = System(slave: Conn, master: Conn, toSlave: seq<Msg>, toMaster: seq<Msg>, shared: Shared)

  datatype Action = SlaveRead | SlaveWrite | MasterRead | MasterWrite
    | MasterSends(k: nat, count: u16) | MasterRefills(k: nat, count: u16, last: u16)

  ghost predicate Enabled(s: System, a: Action) {
    match a
    case SlaveRead => |s.toSlave| > 0 && Receive(s.slave, s.shared, s.toSlave[0]).Some?
    case SlaveWrite => CanWrite(s.slave)
    case MasterRead => |s.toMaster| > 0 && Receive(s.master, s.shared, s.toMaster[0]).Some?
    case MasterWrite => CanWrite(s.master)
    case MasterSends(k, _) => s.master.connected && !s.slave.connected && k in s.shared
    case MasterRefills(k, _, last) => s.master.connected && !s.slave.connected && k in s.shared && Between(s.shared[k], last)
  }

  /** What the master can publish on an M2S ring: no more than the slave has offered there. */
  function MasterPublish(i: Indices, count: u16): Indices {
    Indices(i.head, Wrap(i.tail + Min(count, Wrap(i.head - i.tail))))
  }

  /** Where the master's last_head can be: it has read up to there, and head is as far as it can read. */
  predicate Between(i: Indices, last: u16) { Wrap(last - i.tail) <= Wrap(i.head - i.tail) }

  ghost function Apply(s: System, a: Action): System
    requires Enabled(s, a)
  {
    match a
    case SlaveRead =>
      var r := Receive(s.slave, s.shared, s.toSlave[0]).value;
      s.(slave := r.0, shared := r.1, toSlave := s.toSlave[1..])
    case SlaveWrite => s.(slave := AfterWrite(s.slave), toMaster := s.toMaster + [s.slave.queue[0]])
    case MasterRead =>
      var r := Receive(s.master, s.shared, s.toMaster[0]).value;
      s.(master := r.0, shared := r.1, toMaster := s.toMaster[1..])
    case MasterWrite => s.(master := AfterWrite(s.master), toSlave := s.toSlave + [s.master.queue[0]])
    case MasterSends(k, count) => s.(shared := s.shared[k := MasterPublish(s.shared[k], count)])
    case MasterRefills(k, count, last) =>
      s.(shared := s.shared[k := s.shared[k].(tail := RingMachine.MasterRefillTail(s.shared[k].tail, last, count))])
  }

  /** A connection before anything has been exchanged. */
  function Fresh(args: RunArgs): Conn { Conn(args, [], false, [], [], [], false) }

  /** memif_conn_fd_accept_ready has sent HELLO. */
  function Start(slave: RunArgs, master: RunArgs): System {
    System(Fresh(slave), Fresh(master), [HelloMsg()], [], map[])
  }

  ghost predicate IsRun(slave: RunArgs, master: RunArgs, states: seq<System>, actions: seq<Action>) {
    && |states| == |actions| + 1 && states[0] == Start(slave, master)
    && (forall i :: 0 <= i < |actions| ==>
          Enabled(states[i], actions[i]) && states[i + 1] == Apply(states[i], actions[i]))
  }
}
