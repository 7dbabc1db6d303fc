/**
 The server's poll loop between two rings: requests come in on one, replies leave on the other.
 */
module ServerLoop {
  import opened Arith
  import opened Basics
  import opened RingMachine
  import opened RingProofs
  import opened RingCode

  const REPLY_SIZE: nat := 128 // the size the server allocates with; copying does not change it

  /** The application's callback: it works on all buffers of a burst in place. */
  type Handler = seq<Payload> -> seq<Payload>

  /** It answers every request. */
  ghost predicate HandlesAll(handle: Handler) { forall s :: |handle(s)| == |s| }

  function Datas(ps: seq<Packet>): (ds: seq<Payload>)
    ensures |ds| == |ps| && forall k :: 0 <= k < |ps| ==> ds[k] == ps[k].data
  {
    seq(|ps|, k requires 0 <= k < |ps| => ps[k].data)
  }

  /** Packets of the size the server allocates. */
  function Sized(datas: seq<Payload>): (ps: seq<Packet>)
    ensures |ps| == |datas|
  {
    seq(|datas|, k requires 0 <= k < |datas| => Packet(REPLY_SIZE, datas[k]))
  }

  /** The reply packets to a burst. */
  function Replies(handle: Handler, requests: seq<Packet>): (rs: seq<Packet>)
  {
    Sized(handle(Datas(requests)))
  }

  /** What the server relies on while clients send. */
  ghost predicate RequestsKept(s: State, t: State) {
    t.cons == s.cons && t.received == s.received && t.released == s.released && |s.published| <= |t.published|
  }

  /** What the server relies on while clients receive. */
  ghost predicate RepliesKept(s: State, t: State) {
    t.prod == s.prod && t.published == s.published && t.mem == s.mem && s.released <= t.released
  }

  /**
   What has been received and published, how many request slots have been given back, and lower
   bounds on what clients have sent and on the reply slots they have given back.
   */
  datatype Ledger = Ledger(received: seq<Packet>, published: seq<Packet>, released: int, sent: nat, room: int)

  class Server {
    const requests: Ring
    const replies: Ring
    var rxCounter: nat
    var txCounter: nat
    var txErrCounter: nat

    /** Between two passes: the server holds no reply buffer, and every request received was answered or counted as an error. */
    ghost predicate Valid()
      reads this, requests, replies
    {
      RingsReady() && replies.held == [] && rxCounter == txCounter + txErrCounter
    }

    /** Both rings are between calls of the server. */
    ghost predicate RingsReady()
      reads this, requests, replies
    {
      && requests != replies && requests.Valid() && replies.Valid()
      && requests.c.dir.S2M? && replies.c.dir.M2S? && REPLY_SIZE <= replies.c.bufferSize
      && requests.consPhase.CIdle? && replies.prodPhase.PIdle?
    }

    constructor (requests: Ring, replies: Ring)
      requires requests != replies && requests.Valid() && replies.Valid()
      requires requests.c.dir.S2M? && replies.c.dir.M2S? && REPLY_SIZE <= replies.c.bufferSize
      requires requests.consPhase.CIdle? && replies.prodPhase.PIdle? && replies.held == []
      ensures Valid() && this.requests == requests && this.replies == replies && rxCounter == 0
    {
      this.requests, this.replies := requests, replies;
      rxCounter, txCounter, txErrCounter := 0, 0, 0;
    }

    /** The first n buffers held carry these payloads, all with the length they were allocated with. */
    ghost predicate Filled(datas: seq<Payload>, n: nat)
      reads replies
    {
      && n <= |datas| == |replies.held|
      && (forall k :: 0 <= k < |replies.held| ==> replies.held[k].len == REPLY_SIZE)
      && (forall k :: 0 <= k < n ==> replies.held[k].data in replies.mem && replies.mem[replies.held[k].data] == datas[k])
    }

    /** The clients run on both rings for as long as they like. */
    method Pause()
      requires requests != replies && requests.Valid() && replies.Valid()
      modifies requests, replies
      ensures requests.Valid() && RequestsKept(old(requests.Snapshot()), requests.Snapshot())
      ensures replies.Valid() && RepliesKept(old(replies.Snapshot()), replies.Snapshot())
    {
      requests.Yield(true);
      replies.Yield(false);
    }

    /** One buffer is filled; the others keep what they carry. */
    method PutReply(i: nat, data: Payload, ghost datas: seq<Payload>)
      requires replies.Valid() && replies.prodPhase.PIdle? && i < |datas| && data == datas[i] && Filled(datas, i)
      modifies replies
      ensures replies.Valid() && replies.prodPhase.PIdle?
      ensures replies.published == old(replies.published) && replies.released == old(replies.released)
      ensures Filled(datas, i + 1)
    {
      ghost var held := replies.held;
      ReachableInv(replies.c, replies.Snapshot());
      forall k | 0 <= k < i ensures held[k].data != held[i].data {
        HeldApart(replies.c, replies.Snapshot(), k, i);
      }
      replies.WriteBuffer(i, replies.held[i].len, data);
    }

    /** The requests from `base` on are those of the burst and have not been given back. */
    ghost predicate Unanswered(base: nat, packets: seq<Packet>)
      reads requests
    {
      && requests.Valid() && requests.consPhase.CIdle?
      && requests.released <= base && base + |packets| == |requests.received| && requests.received[base..] == packets
    }

    /** The server has received and published this much, and slots have been given back. */
    ghost predicate At(l: Ledger)
      reads this, requests, replies
    {
      RingsReady() && Booked(l)
    }

    ghost predicate Booked(l: Ledger)
      reads this, requests, replies
    {
      && requests.received == l.received && replies.published == l.published
      && requests.released == l.released && l.sent <= |requests.published| && l.room <= replies.released
    }

    /** The clients run while the server is at work on reply buffers it has filled. */
    ghost predicate Working(datas: seq<Payload>, n: nat, l: Ledger)
      reads this, requests, replies
    {
      At(l) && Filled(datas, n)
    }

    /** One pass of the copy loop.  The clients may run before it and between its two accesses. */
    method CopyNext(first: u16, i: nat, ghost base: nat, ghost packets: seq<Packet>, ghost datas: seq<Payload>, ghost l: Ledger)
      requires Unanswered(base, packets) && first == Wrap(base) && Working(datas, i, l)
      requires i < |datas| <= |packets| && datas[i] == packets[i].data
      modifies requests, replies
      ensures Unanswered(base, packets) && Working(datas, i + 1, l)
    {
      Pause();
      WrapAdd(base, i);
      assert requests.received[base..][i] == requests.received[base + i];
      var data := requests.ReadReceived(Wrap(first + i), base + i);
      Pause();
      PutReply(i, data, datas);
    }

    /** The copy loop: request buffers into reply buffers. */
    method CopyRequests(first: u16, tx: nat, ghost base: nat, ghost packets: seq<Packet>, ghost l: Ledger)
      requires Unanswered(base, packets) && first == Wrap(base) && tx <= |packets| && Working(Datas(packets[..tx]), 0, l)
      modifies requests, replies
      ensures Unanswered(base, packets) && Working(Datas(packets[..tx]), tx, l)
    {
      var i, left := 0, tx;
      ghost var datas := Datas(packets[..tx]);
      while left > 0
        invariant i + left == tx && Unanswered(base, packets) && Working(datas, i, l)
      {
        CopyNext(first, i, base, packets, datas, l);
        i, left := i + 1, left - 1;
      }
    }

    method ReadReplies(ghost datas: seq<Payload>, ghost l: Ledger) returns (ins: seq<Payload>)
      requires Working(datas, |datas|, l)
      modifies requests, replies
      ensures Working(datas, |datas|, l) && ins == datas
    {
      ins := [];
      for k := 0 to |replies.held|
        invariant Working(datas, |datas|, l) && |ins| == k && ins == datas[..k]
      {
        var d := ReadReply(k, datas, l);
        ins := ins + [d];
      }
    }

    method ReadReply(k: nat, ghost datas: seq<Payload>, ghost l: Ledger) returns (d: Payload)
      requires Working(datas, |datas|, l) && k < |datas|
      modifies requests, replies
      ensures Working(datas, |datas|, l) && replies.held == old(replies.held) && d == datas[k]
    {
      Pause();
      d := replies.ReadHeld(k);
    }

    /** The callback on the reply buffers: read all, handle, write all back. */
    method HandleReplies(handle: Handler, ghost datas: seq<Payload>, ghost l: Ledger)
      requires HandlesAll(handle) && Working(datas, |datas|, l)
      modifies requests, replies
      ensures |handle(datas)| == |datas| && Working(handle(datas), |datas|, l)
    {
      var ins := ReadReplies(datas, l);
      var out := handle(ins);
      assert |out| == |ins|;
      for k := 0 to |out|
        invariant Working(out, k, l)
      {
        Pause();
        PutReply(k, out[k], out);
      }
    }

    /** As many reply buffers as there are requests, or as many as are free; clients may only have freed more by then. */
    method AllocReplies(rx: u16, ghost l: Ledger) returns (tx: nat)
      requires At(l) && replies.held == []
      modifies requests, replies
      ensures At(l) && tx <= rx && Min(rx, l.room + replies.c.Size() - |l.published|) <= tx
      ensures |replies.held| == tx && forall k :: 0 <= k < tx ==> replies.held[k].len == REPLY_SIZE
    {
      Pause();
      ReachableInv(replies.c, replies.Snapshot());
      var bufs, full := replies.BufferAlloc(rx, REPLY_SIZE);
      tx := |bufs|;
    }

    /** The middle of a pass: allocate and copy. */
    method Fill(rx: u16, ghost base: nat, ghost packets: seq<Packet>, ghost l: Ledger) returns (tx: nat)
      requires At(l) && replies.held == [] && Unanswered(base, packets) && |packets| == rx
      modifies requests, replies
      ensures tx <= rx && Min(rx, l.room + replies.c.Size() - |l.published|) <= tx && Working(Datas(packets[..tx]), tx, l)
    {
      tx := AllocReplies(rx, l);
      ReachableInv(requests.c, requests.Snapshot());
      WrapAdd(|requests.received|, 0 - rx);
      CopyRequests(Wrap(requests.last - rx), tx, base, packets, l);
    }

    /** The requests are given back; the copies stay as they are. */
    method Refill(rx: u16, ghost datas: seq<Payload>, ghost l: Ledger) returns (ghost l': Ledger)
      requires Working(datas, |datas|, l)
      modifies requests, replies
      ensures Working(datas, |datas|, l') && l' == l.(released := l'.released)
      ensures l.released + Min(rx, |l.received| - l.released) <= l'.released <= |l.received|
    {
      Pause();
      requests.RefillQueue(rx);
      l' := l.(released := requests.released);
    }

    /** All buffers held are transmitted. */
    method Transmit(tx: u16, ghost datas: seq<Payload>, ghost l: Ledger) returns (sent: nat)
      requires tx == |datas| && Working(datas, |datas|, l)
      modifies requests, replies
      ensures At(l.(published := l.published + Sized(datas))) && replies.held == [] && sent == tx
    {
      Pause();
      ghost var mem, held := replies.mem, replies.held;
      sent := replies.TxBurst(tx);
      assert held[..tx] == held && PacketsOf(mem, held) == Sized(datas);
    }

    /** The rest of a pass: refill, handle, transmit. */
    method Answer(handle: Handler, rx: u16, tx: nat, ghost answered: seq<Packet>, ghost l: Ledger) returns (sent: nat, ghost l': Ledger)
      requires HandlesAll(handle) && |answered| == tx <= rx && Working(Datas(answered), tx, l)
      modifies requests, replies
      ensures At(l') && replies.held == [] && sent == tx
      ensures l' == l.(published := l.published + Replies(handle, answered), released := l'.released)
      ensures l.released + Min(rx, |l.received| - l.released) <= l'.released <= |l.received|
    {
      ghost var given := Refill(rx, Datas(answered), l);
      HandleReplies(handle, Datas(answered), given);
      sent := Transmit(tx, handle(Datas(answered)), given);
      l' := given.(published := l.published + Replies(handle, answered));
    }

    /**
     The second half of a pass: allocate, copy, refill, handle, transmit.  All of the burst's slots
     are given back, and as many requests are answered as there is room for.
     */
    method Respond(handle: Handler, rx: u16, ghost packets: seq<Packet>, ghost l: Ledger) returns (tx: nat, sent: nat, ghost l': Ledger)
      requires HandlesAll(handle) && At(l) && replies.held == [] && |packets| == rx <= |l.received|
      requires Unanswered(|l.received| - rx, packets)
      modifies requests, replies
      ensures At(l') && replies.held == [] && sent == tx <= rx && Min(rx, l.room + replies.c.Size() - |l.published|) <= tx
      ensures l' == l.(published := l.published + Replies(handle, packets[..tx]), released := l'.released)
      ensures l.released + rx <= l'.released <= |l.received|
    {
      tx := Fill(rx, |l.received| - rx, packets, l);
      sent, l' := Answer(handle, rx, tx, packets[..tx], l);
    }

    /** The receive of a pass: what was waiting then, at least what had been published before. */
    method Receive(ghost l: Ledger) returns (packets: seq<Packet>, more: bool, ghost unread: nat)
      requires At(l) && replies.held == []
      modifies requests, replies
      ensures At(l.(received := l.received + packets)) && replies.held == [] && Unanswered(|l.received|, packets)
      ensures old(|requests.published|) <= |l.received| + unread && |packets| == Min(MAX_MEMIF_BUFS, unread)
      ensures more <==> |packets| < unread
    {
      Pause();
      ReachableInv(requests.c, requests.Snapshot());
      unread := |requests.published| - |requests.received|;
      packets, more := requests.RxBurst(MAX_MEMIF_BUFS);
    }

    /**
     One pass of on_interrupt00_poll: receive, allocate, copy, refill, handle, transmit, with clients
     running on both rings before, between and inside these.  The burst is as much of what is waiting
     as fits; its slots are given back.  It is appended to what was received, and the replies to its
     first n requests, in order, to what is published; n is what memif_tx_burst reports, and no less
     than the reply ring has room for.
     */
    method PollOnce(handle: Handler) returns (more: bool, ghost burst: seq<Packet>, ghost n: nat, ghost unread: nat)
      requires Valid() && HandlesAll(handle)
      modifies this, requests, replies
      ensures Valid() && old(|requests.published| - |requests.received|) <= unread
      ensures |burst| == Min(MAX_MEMIF_BUFS, unread) && (more <==> |burst| < unread)
      ensures n <= |burst| && Min(|burst|, old(replies.released) + replies.c.Size() - old(|replies.published|)) <= n
      ensures requests.received == old(requests.received) + burst
      ensures old(requests.released) + |burst| <= requests.released <= |requests.received|
      ensures old(|requests.published|) <= |requests.published|
      ensures replies.published == old(replies.published) + Replies(handle, burst[..n]) && old(replies.released) <= replies.released
      ensures rxCounter == old(rxCounter) + |burst| && txCounter == old(txCounter) + n
      ensures txErrCounter == old(txErrCounter) + |burst| - n
    {
      ghost var l := Ledger(requests.received, replies.published, requests.released, |requests.published|, replies.released);
      var packets;
      packets, more, unread := Receive(l);
      burst := packets;
      rxCounter := rxCounter + |packets|;
      ghost var l';
      var tx, sent;
      tx, sent, l' := Respond(handle, |packets|, packets, l.(received := l.received + packets));
      n := tx;
      txErrCounter := txErrCounter + (|packets| - tx);
      txCounter := txCounter + sent;
    }

    /** The bursts taken since the start have been answered, given back and counted. */
    ghost predicate Polled(handle: Handler, bursts: seq<seq<Packet>>, ns: seq<nat>, l: Ledger)
      reads this, requests, replies
    {
      && Valid() && Answering(bursts, ns) && HandlesAll(handle)
      && requests.received == l.received + Taken(bursts) && replies.published == l.published + AllReplies(handle, bursts, ns)
      && l.released + |Taken(bursts)| <= requests.released <= |requests.received|
      && l.sent <= |requests.published| && l.room <= replies.released
      && Min(|Taken(bursts)|, l.room + replies.c.Size() - |l.published|) <= Total(ns)
    }

    /** One more pass. */
    method PollNext(handle: Handler, ghost bursts: seq<seq<Packet>>, ghost ns: seq<nat>, ghost l: Ledger)
      returns (more: bool, ghost bursts': seq<seq<Packet>>, ghost ns': seq<nat>)
      requires Polled(handle, bursts, ns, l)
      modifies this, requests, replies
      ensures Polled(handle, bursts', ns', l) && |bursts'| == |bursts| + 1 && (!more ==> l.sent <= |requests.received|)
      ensures rxCounter == old(rxCounter) + |Taken(bursts')| - |Taken(bursts)| && txCounter == old(txCounter) + Total(ns') - Total(ns)
    {
      ghost var burst, n, unread;
      more, burst, n, unread := PollOnce(handle);
      OneMoreBurst(handle, bursts, ns, burst, n);
      Joins(l.received, Taken(bursts), burst);
      Joins(l.published, AllReplies(handle, bursts, ns), Replies(handle, burst[..n]));
      RepliesCount(handle, bursts, ns);
      bursts', ns' := bursts + [burst], ns + [n];
    }

    /**
     on_interrupt00_poll, for at most `passes` passes: it goes on while the request ring had more
     than a burst.  When it stops before that, everything published when it began has been received.
     All slots taken are given back, and as many requests answered as there was room for.
     */
    method Poll(handle: Handler, passes: nat) returns (more: bool, ghost bursts: seq<seq<Packet>>, ghost ns: seq<nat>)
      requires Valid() && HandlesAll(handle)
      modifies this, requests, replies
      ensures Valid() && Answering(bursts, ns)
      ensures requests.received == old(requests.received) + Taken(bursts)
      ensures replies.published == old(replies.published) + AllReplies(handle, bursts, ns)
      ensures old(requests.released) + |Taken(bursts)| <= requests.released <= |requests.received|
      ensures Min(|Taken(bursts)|, old(replies.released) + replies.c.Size() - old(|replies.published|)) <= Total(ns)
      ensures rxCounter == old(rxCounter) + |Taken(bursts)| && txCounter == old(txCounter) + Total(ns)
      ensures if more then |bursts| == passes else old(|requests.published|) <= |requests.received|
    {
      more, bursts, ns := true, [], [];
      ReachableInv(requests.c, requests.Snapshot());
      ghost var l := Ledger(requests.received, replies.published, requests.released, |requests.published|, replies.released);
      var left := passes;
      while left > 0 && more
        invariant Polled(handle, bursts, ns, l) && (more ==> |bursts| + left == passes)
        invariant !more ==> old(|requests.published|) <= |requests.received|
        invariant rxCounter == old(rxCounter) + |Taken(bursts)| && txCounter == old(txCounter) + Total(ns)
      {
        more, bursts, ns := PollNext(handle, bursts, ns, l);
        left := left - 1;
      }
    }
  }

  function Total(ns: seq<nat>): nat {
    if ns == [] then 0 else Total(ns[..|ns| - 1]) + ns[|ns| - 1]
  }

  lemma {:induction false} RepliesCount(handle: Handler, bursts: seq<seq<Packet>>, ns: seq<nat>)
    requires Answering(bursts, ns) && HandlesAll(handle)
    ensures |AllReplies(handle, bursts, ns)| == Total(ns)
    decreases |bursts|
  {
    if bursts != [] {
      var m := |bursts| - 1;
      RepliesCount(handle, bursts[..m], ns[..m]);
      assert |handle(Datas(bursts[m][..ns[m]]))| == ns[m];
    }
  }

  /** Bursts of at most 64 requests, and how many of each were answered. */
  ghost predicate Answering(bursts: seq<seq<Packet>>, ns: seq<nat>) {
    |ns| == |bursts| && forall k :: 0 <= k < |bursts| ==> ns[k] <= |bursts[k]| <= MAX_MEMIF_BUFS
  }

  function Taken(bursts: seq<seq<Packet>>): seq<Packet> {
    if bursts == [] then [] else Taken(bursts[..|bursts| - 1]) + bursts[|bursts| - 1]
  }

  /** The replies to a prefix of each burst, burst by burst. */
  ghost function AllReplies(handle: Handler, bursts: seq<seq<Packet>>, ns: seq<nat>): seq<Packet>
    requires Answering(bursts, ns)
    decreases |bursts|
  {
    if bursts == [] then []
    else
      var m := |bursts| - 1;
      AllReplies(handle, bursts[..m], ns[..m]) + Replies(handle, bursts[m][..ns[m]])
  }

  lemma OneMoreBurst(handle: Handler, bursts: seq<seq<Packet>>, ns: seq<nat>, burst: seq<Packet>, n: nat)
    requires Answering(bursts, ns) && n <= |burst| <= MAX_MEMIF_BUFS
    ensures Answering(bursts + [burst], ns + [n]) && Taken(bursts + [burst]) == Taken(bursts) + burst
    ensures AllReplies(handle, bursts + [burst], ns + [n]) == AllReplies(handle, bursts, ns) + Replies(handle, burst[..n])
    ensures Total(ns + [n]) == Total(ns) + n
  {
    assert (bursts + [burst])[..|bursts|] == bursts && (ns + [n])[..|ns|] == ns;
  }
}
