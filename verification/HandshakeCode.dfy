/**
 The connection object and its message handlers, proved against Handshake.Receive.
 */
module HandshakeCode {
  import opened Arith
  import opened Basics
  import opened Layout
  import opened Handshake

  lemma OffsetsExtend(qs: seq<Slot<Queue>>, q: Queue)
    ensures Offsets(qs + [Set(q)]) == Offsets(qs) + {q.offset}
  {
    var more := qs + [Set(q)];
    assert more[|qs|] == Set(q);
    forall k | k in Offsets(qs) + {q.offset} ensures k in Offsets(more) {
      if k in Offsets(qs) {
        var i :| 0 <= i < |qs| && qs[i].Set? && qs[i].value.offset == k;
        assert more[i] == qs[i];
      }
    }
  }

  lemma OffsetsPrefix(qs: seq<Slot<Queue>>, i: nat)
    requires i < |qs| && qs[i].Set?
    ensures Offsets(qs[..i + 1]) == Offsets(qs[..i]) + {qs[i].value.offset}
  {
    OffsetsExtend(qs[..i], qs[i].value);
    assert qs[..i + 1] == qs[..i] + [qs[i]];
  }

  lemma HeadersUnion(shared: Shared, a: set<nat>, b: set<nat>)
    ensures shared + HeadersAt(a) + HeadersAt(b) == shared + HeadersAt(a + b)
  {
  }

  lemma HeadersAdd(shared: Shared, a: set<nat>, k: nat)
    ensures (shared + HeadersAt(a))[k := Indices(0, 0)] == shared + HeadersAt(a + {k})
  {
  }

  lemma InFiveParts(q: seq<Msg>, a: seq<Msg>, b: seq<Msg>, c: seq<Msg>, d: seq<Msg>, e: seq<Msg>)
    ensures q + a + b + c + d + e == q + (a + b + c + d + e)
  {
  }

  /** Region 0, mapped by both processes. */
  class Memory {
    var rings: Shared

    constructor ()
      ensures rings == map[]
    {
      rings := map[];
    }

    /** One pass of the queue loops of memif_connect1: check the cookie, clear the indices. */
    method ClearRing(q: Slot<Queue>) returns (err: bool)
      modifies this
      ensures err <==> !(q.Set? && q.value.region == 0 && q.value.offset in old(rings))
      ensures rings == if err then old(rings) else Zeroed(old(rings), {q.value.offset})
    {
      err := !(q.Set? && q.value.region == 0 && q.value.offset in rings);
      if !err {
        rings := rings[q.value.offset := Indices(0, 0)];
      }
    }

    /** The rx loop or the tx loop of memif_connect1. */
    method ClearRings(qs: seq<Slot<Queue>>) returns (err: bool)
      modifies this
      ensures err <==> !RingsReady(old(rings), qs)
      ensures rings.Keys == old(rings).Keys
      ensures !err ==> rings == Zeroed(old(rings), Offsets(qs))
    {
      err := false;
      var i := 0;
      while i < |qs|
        invariant 0 <= i <= |qs|
        invariant RingsReady(old(rings), qs[..i])
        invariant rings == Zeroed(old(rings), Offsets(qs[..i]))
      {
        err := ClearRing(qs[i]);
        if err {
          return;
        }
        OffsetsPrefix(qs, i);
        i := i + 1;
      }
      assert qs[..i] == qs;
    }
  }

  class Connection {
    const args: RunArgs
    const memory: Memory
    var queue: seq<Msg>
    var write: bool
    var regions: seq<Slot<nat>>
    var rx: seq<Slot<Queue>>
    var tx: seq<Slot<Queue>>
    var connected: bool

    function Value(): Conn
      reads this
    {
      Conn(args, queue, write, regions, rx, tx, connected)
    }

    constructor (args: RunArgs, memory: Memory)
      ensures this.args == args && this.memory == memory && Value() == Fresh(args)
    {
      this.args, this.memory := args, memory;
      queue, write, regions, rx, tx, connected := [], false, [], [], [], false;
    }

    /** memif_init_queues for the rings of one type. */
    method InitQueues(run: RunArgs, t: RingType, count: nat) returns (qs: seq<Slot<Queue>>)
      modifies memory
      ensures qs == Queues(run, t, count)
      ensures memory.rings == old(memory.rings) + HeadersAt(Offsets(qs))
    {
      qs := [];
      assert Offsets(qs) == {} && memory.rings + HeadersAt({}) == memory.rings;
      for i := 0 to count
        invariant qs == Queues(run, t, i)
        invariant memory.rings == old(memory.rings) + HeadersAt(Offsets(qs))
      {
        var q := Queue(0, RingOffset(run, t, i), run.log2);
        OffsetsExtend(qs, q);
        HeadersAdd(old(memory.rings), Offsets(qs), q.offset);
        memory.rings := memory.rings[q.offset := Indices(0, 0)];
        qs := qs + [Set(q)];
      }
    }

    method InitRegionsAndQueues(run: RunArgs)
      modifies this, memory
      ensures Value() == Handshake.InitRegionsAndQueues(old(Value()), run)
      ensures memory.rings == old(memory.rings) + RingHeaders(Value())
    {
      regions := regions + [Set(run.RingRegionSize())];
      regions := regions + [Set(run.BufferRegionSize())];
      tx := InitQueues(run, S2M, run.s2mRings);
      rx := InitQueues(run, M2S, run.m2sRings);
      HeadersUnion(old(memory.rings), Offsets(tx), Offsets(rx));
      assert regions == old(regions) + [Set(run.RingRegionSize()), Set(run.BufferRegionSize())];
    }

    /** memif_msg_enq_*: the new element goes behind the last one. */
    method Enqueue(m: Msg)
      modifies this`queue
      ensures queue == old(queue) + [m]
    {
      queue := queue + [m];
    }

    method EnqAddRegions()
      modifies this`queue
      ensures queue == old(queue) + EnqRegions(regions, |regions|)
    {
      for i := 0 to |regions|
        invariant queue == old(queue) + EnqRegions(regions, i)
      {
        Enqueue(AddRegion(i, if regions[i].Set? then regions[i].value else 0));
      }
    }

    method EnqAddRings(s2m: bool)
      modifies this`queue
      ensures queue == old(queue) + EnqRings(if s2m then tx else rx, s2m, if s2m then |tx| else |rx|)
    {
      var qs := if s2m then tx else rx;
      for i := 0 to |qs|
        invariant queue == old(queue) + EnqRings(qs, s2m, i)
      {
        Enqueue(AddRing(s2m, i, if qs[i].Set? then qs[i].value else Queue(0, 0, 0)));
      }
    }

    method EnqScript()
      modifies this`queue
      ensures queue == old(queue) + Script(Value())
    {
      Enqueue(Init(MEMIF_VERSION));
      EnqAddRegions();
      EnqAddRings(true);
      EnqAddRings(false);
      Enqueue(Connect);
      InFiveParts(old(queue), [Init(MEMIF_VERSION)], EnqRegions(regions, |regions|), EnqRings(tx, true, |tx|),
                  EnqRings(rx, false, |rx|), [Connect]);
    }

    method ReceiveHello(m: Msg) returns (err: bool)
      requires m.Hello?
      modifies this, memory
      ensures err <==> Receive(old(Value()), old(memory.rings), m).None?
      ensures err ==> Value() == old(Value()) && memory.rings == old(memory.rings)
      ensures !err ==>
                Receive(old(Value()), old(memory.rings), m) == Some((Value().(write := true), memory.rings))
    {
      err := m.minVersion > MEMIF_VERSION || m.maxVersion < MEMIF_VERSION;
      if !err {
        var run := Negotiate(args, m);
        InitRegionsAndQueues(run);
        EnqScript();
      }
    }

    method ReceiveAddRegion(index: nat, size: nat) returns (err: bool)
      modifies this`regions
      ensures err <==> index > MAX_REGION || index > |old(regions)|
      ensures regions == if err then old(regions) else Grow(old(regions), index, size).value
    {
      err := index > MAX_REGION || index > |regions|;
      if !err {
        regions := regions + [Unset];
        regions := regions[index := Set(size)];
      }
    }

    method ReceiveAddRing(s2m: bool, index: nat, q: Queue) returns (err: bool)
      modifies this`rx, this`tx
      ensures err <==>
                || index > MAX_RING
                || index >= (if s2m then args.s2mRings else args.m2sRings)
                || index > |if s2m then old(rx) else old(tx)|
      ensures rx == if err || !s2m then old(rx) else Grow(old(rx), index, q).value
      ensures tx == if err || s2m then old(tx) else Grow(old(tx), index, q).value
    {
      err := true;
      if s2m {
        if index > MAX_RING || index >= args.s2mRings || index > |rx| {
          return;
        }
        rx := rx + [Unset];
        rx := rx[index := Set(q)];
      } else {
        if index > MAX_RING || index >= args.m2sRings || index > |tx| {
          return;
        }
        tx := tx + [Unset];
        tx := tx[index := Set(q)];
      }
      err := false;
    }

    /** memif_connect1. */
    method Connect1() returns (err: bool)
      modifies memory, this`connected
      ensures err <==> !RingsReady(old(memory.rings), rx) || !RingsReady(old(memory.rings), tx)
      ensures !err ==> memory.rings == ZeroRings(old(memory.rings), old(Value())) && connected
    {
      err := memory.ClearRings(rx);
      if err {
        return;
      }
      ghost var between := memory.rings;
      err := memory.ClearRings(tx);
      assert RingsReady(between, tx) <==> RingsReady(old(memory.rings), tx);
      if !err {
        connected := true;
      }
    }

    /** memif_msg_receive. */
    method MsgReceive(m: Msg) returns (err: bool)
      modifies this, memory
      ensures err <==> Receive(old(Value()), old(memory.rings), m).None?
      ensures !err ==> Receive(old(Value()), old(memory.rings), m) == Some((Value(), memory.rings))
    {
      err := false;
      match m {
        case Ack =>
        case Hello(_, _, _, _, _) => err := ReceiveHello(m);
        case Init(version) =>
          err := version != MEMIF_VERSION;
          if !err {
            Enqueue(Ack);
          }
        case AddRegion(index, size) =>
          err := ReceiveAddRegion(index, size);
          if !err {
            Enqueue(Ack);
          }
        case AddRing(s2m, index, q) =>
          err := ReceiveAddRing(s2m, index, q);
          if !err {
            Enqueue(Ack);
          }
        case Connect =>
          err := Connect1();
          if !err {
            Enqueue(Connected);
          }
        case Connected => err := Connect1();
      }
      if !err {
        write := true;
      }
    }

    /** memif_conn_fd_write_ready. */
    method WriteReady() returns (sent: Option<Msg>)
      modifies this
      ensures sent == if CanWrite(old(Value())) then Some(old(queue)[0]) else None
      ensures Value() == if CanWrite(old(Value())) then AfterWrite(old(Value())) else old(Value())
    {
      if !write || |queue| == 0 {
        return None;
      }
      sent := Some(queue[0]);
      queue := queue[1..];
      write := false;
    }
  }
}
