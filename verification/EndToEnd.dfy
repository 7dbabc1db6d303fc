/**
 A job's whole way: encoded by the client, copied and decoded by the server, run in a burst, its
 context written back, decoded by the client.
 */
module EndToEnd {
  import opened Basics
  import opened Sessions
  import opened SessionTheorems
  import opened Pipeline
  import opened Vectors
  import opened SessionKeys
  import opened Serializer
  import opened SerializerTheorems

  function KindCode(k: u32): Kind {
    if k == 0 then Ciphering else if k == 1 then Creating else if k == 2 then Closing else Unknown
  }

  function StatusOf(c: u32): Status { if c == STATUS_SUCC then Succ else if c == STATUS_FAILED then Failed else NotProcessed }

  function StatusCode(s: Status): u32 { if s.Succ? then STATUS_SUCC else if s.Failed? then STATUS_FAILED else 0 }

  /** The numbers on the wire. */
  lemma WireCodes(k: u32)
    ensures StatusCode(NotProcessed) == 0 && StatusCode(Succ) == 1 && StatusCode(Failed) == 2
    ensures forall s :: StatusOf(StatusCode(s)) == s
    ensures KindCode(0).Ciphering? && KindCode(1).Creating? && KindCode(2).Closing? && (k > 2 ==> KindCode(k).Unknown?)
  {
  }

  /** The job the server finds in a buffer. */
  function ServerJob(buf: seq<Byte>): Job
    requires WellSized(buf)
  {
    var op := DecodedContext(HeaderOf(buf));
    Job(KindCode(op.kind), StatusOf(op.status), op.sessId, op.algo, op.cipherOp, 1, DataOf(buf), Serializer.KeyOf(buf), IvOf(buf))
  }

  /** The buffer the server sends back for a job it has run. */
  function Reply(buf: seq<Byte>, j: Job): (r: seq<Byte>)
    requires WellSized(buf) && |j.data| == HeaderOf(buf).data && j.sessId < TWO32
  {
    Replied(buf, DecodedContext(HeaderOf(buf)).(status := StatusCode(j.status), sessId := j.sessId), j.data)
  }

  /** Ciphers keep the length. */
  ghost predicate KeepsLength(f: Cipher) { forall c, d, v :: |f(c, d, v).1| == |d| }

  /** What the server's copy of a client's job carries. */
  lemma Arrived(j: Operation, cbuf: seq<Byte>, sbuf: seq<Byte>)
    requires Encodable(cbuf, j) && RoomFor(sbuf, j)
    ensures WellSized(Encode(cbuf, j))
    ensures var h := HeaderOf(Encode(cbuf, j)); KEY + h.key + h.iv <= |sbuf|
    ensures Sound(j) ==> Carries(Copy(Encode(cbuf, j), sbuf), j.op, Gather(j.segments, |j.segments|), j.key.bytes, j.iv.bytes)
    ensures Oversize(j) ==> Carries(Copy(Encode(cbuf, j), sbuf), j.op.(status := STATUS_FAILED), [], [], [])
  {
    EncodeHeader(cbuf, j);
    CopyCarries(Encode(cbuf, j), sbuf);
    if Sound(j) {
      EncodeCarries(cbuf, j);
    }
    if Oversize(j) {
      EncodeOversize(cbuf, j);
    }
  }

  /** The client's job as it lies in the server's transmit buffer. */
  ghost function Received(j: Operation, cbuf: seq<Byte>, sbuf: seq<Byte>): (s: seq<Byte>)
    requires Encodable(cbuf, j) && RoomFor(sbuf, j)
    ensures WellSized(s)
  {
    Arrived(j, cbuf, sbuf);
    CopyCarries(Encode(cbuf, j), sbuf);
    Copy(Encode(cbuf, j), sbuf)
  }

  /**
   What the reply to a cipher job says and carries: FAILED and the job's own data when the server
   does not accept it, success and its own data when there are not enough operations, and otherwise
   the device's verdict and result.
   */
  function Answered(b: Burst, e: Engine, i: nat): (u32, seq<Byte>)
    requires b.Served(e) && i < |b.jobs|
  {
    if !Accepted(b, i) then (STATUS_FAILED, b.jobs[i].data)
    else if !OpsSuffice(b, i) then (STATUS_SUCC, b.jobs[i].data)
    else
      var (verdict, result) := DeviceAnswer(b, e, i);
      (if verdict.OpError? then STATUS_FAILED else STATUS_SUCC, result)
  }

  lemma AnsweredOutcome(b: Burst, e: Engine, i: nat)
    requires b.Served(e) && i < |b.jobs| && b.jobs[i].kind.Ciphering?
    ensures var (status, data) := Answered(b, e, i);
            var out := Outcome(b, e, i);
            StatusCode(out.status) == status && out.data == data && out.sessId == b.jobs[i].sessId
  {
    if Accepted(b, i) {
      OwnResult(b, e, i);
      var j := b.jobs[i].(status := Succ, buffers := 1);
      assert DeviceAnswer(b, e, i) == e.cipher(SessionConfig(b, i), j.data, Loaded(e.held[i], j.iv));
    } else {
      assert Outcome(b, e, i) == PreOut(b, i);
    }
  }

  /** The reply to a buffer that carries a cipher job. */
  lemma ReplyCarriesAnswer(s: seq<Byte>, op: Context, data: seq<Byte>, key: seq<Byte>, iv: seq<Byte>, b: Burst, e: Engine, i: nat)
    requires Carries(s, op, data, key, iv) && op.kind == 0 && op.status != STATUS_SUCC && KeepsLength(e.cipher)
    requires b.Served(e) && i < |b.jobs| && b.jobs[i] == ServerJob(s)
    ensures var (status, result) := Answered(b, e, i);
            var out := Outcome(b, e, i);
            && |out.data| == HeaderOf(s).data && out.sessId == op.sessId
            && Carries(Reply(s, out), op.(status := status), result, key, iv)
  {
    AnsweredOutcome(b, e, i);
    if Accepted(b, i) {
      assert |DeviceAnswer(b, e, i).1| == |b.jobs[i].data|;
    }
    var out := Outcome(b, e, i);
    ReplyCarries(s, op.(status := StatusCode(out.status)), out.data);
  }

  /** What the client has after decoding a reply: the result in its output buffer, or a failed job and an untouched buffer. */
  ghost predicate ClientSees(op: Context, status: u32, result: seq<Byte>, reply: seq<Byte>, out: seq<Byte>)
    requires WellSized(reply) && |out| >= HeaderOf(reply).op.outLen
  {
    var c, out' := DecodedContext(HeaderOf(reply)), DecodedOut(reply, out);
    if status == STATUS_SUCC && op.outPtr != 0 && |result| <= op.outLen
    then c == op.(status := STATUS_SUCC, outLen := |result|) && |out'| == |out| && out'[..|result|] == result && out'[|result|..] == out[|result|..]
    else c == op.(status := STATUS_FAILED) && out' == out
  }

  lemma Delivered(op: Context, status: u32, reply: seq<Byte>, result: seq<Byte>, key: seq<Byte>, iv: seq<Byte>, out: seq<Byte>)
    requires Carries(reply, op.(status := status), result, key, iv) && op.kind == 0 && |out| >= op.outLen
    requires status == STATUS_SUCC || status == STATUS_FAILED
    ensures ClientSees(op, status, result, reply, out)
  {
    DecodeDelivers(reply, out);
  }

  /** Job i of the burst is this client's job, encoded, copied and decoded. */
  ghost predicate Requests(b: Burst, i: nat, j: Operation, cbuf: seq<Byte>, sbuf: seq<Byte>) {
    && Encodable(cbuf, j) && RoomFor(sbuf, j)
    && b.Sized() && i < |b.jobs| && b.jobs[i] == ServerJob(Received(j, cbuf, sbuf))
  }

  /** The reply to the job, as the client receives it. */
  ghost function ReplyTo(b: Burst, e: Engine, i: nat, j: Operation, cbuf: seq<Byte>, sbuf: seq<Byte>): (reply: seq<Byte>)
    requires Requests(b, i, j, cbuf, sbuf) && b.Served(e)
    requires |Outcome(b, e, i).data| == HeaderOf(Received(j, cbuf, sbuf)).data && Outcome(b, e, i).sessId < TWO32
  {
    Reply(Received(j, cbuf, sbuf), Outcome(b, e, i))
  }

  /**
   Request and reply, whole: for every cipher job that fits, in every burst, the reply carries the
   answer for all its segments joined, with its own key and vector, and the client's output buffer
   then holds that answer's data exactly when the answer is a success that has room; otherwise the
   job is FAILED and the buffer untouched.  The device works on the client's own vector when that
   fills the area of an operation.
   */
  lemma RequestReply(j: Operation, cbuf: seq<Byte>, sbuf: seq<Byte>, b: Burst, e: Engine, i: nat, out: seq<Byte>)
    requires Requests(b, i, j, cbuf, sbuf) && Sound(j) && |out| >= j.op.outLen
    requires j.op.kind == 0 && j.op.status != STATUS_SUCC && KeepsLength(e.cipher) && b.Served(e)
    ensures b.jobs[i].data == Gather(j.segments, |j.segments|) && b.jobs[i].iv == j.iv.bytes && b.jobs[i].sessId == j.op.sessId
    ensures Accepted(b, i) && |j.iv.bytes| == IV_SIZE ==>
              DeviceAnswer(b, e, i) == e.cipher(SessionConfig(b, i), Gather(j.segments, |j.segments|), j.iv.bytes)
    ensures var o := Outcome(b, e, i);
            |o.data| == HeaderOf(Received(j, cbuf, sbuf)).data && o.sessId == j.op.sessId
    ensures var (status, result) := Answered(b, e, i);
            var reply := ReplyTo(b, e, i, j, cbuf, sbuf);
            && Carries(reply, j.op.(status := status), result, j.key.bytes, j.iv.bytes)
            && ClientSees(j.op, status, result, reply, out)
  {
    Arrived(j, cbuf, sbuf);
    var s := Received(j, cbuf, sbuf);
    ReplyCarriesAnswer(s, j.op, Gather(j.segments, |j.segments|), j.key.bytes, j.iv.bytes, b, e, i);
    var (status, result) := Answered(b, e, i);
    Delivered(j.op, status, Reply(s, Outcome(b, e, i)), result, j.key.bytes, j.iv.bytes, out);
    if Accepted(b, i) && |j.iv.bytes| == IV_SIZE {
      FullVector(b, e, i);
    }
  }

  /** Without enough operations the client gets its own plaintext back as a success. */
  lemma PlaintextReturned(j: Operation, cbuf: seq<Byte>, sbuf: seq<Byte>, b: Burst, e: Engine, i: nat, out: seq<Byte>)
    requires Requests(b, i, j, cbuf, sbuf) && Sound(j) && |out| >= j.op.outLen
    requires j.op.kind == 0 && j.op.status != STATUS_SUCC && KeepsLength(e.cipher) && b.Served(e)
    requires Accepted(b, i) && !OpsSuffice(b, i) && j.op.outPtr != 0 && Sum(j.segments, |j.segments|) <= j.op.outLen
    ensures var o, n := Outcome(b, e, i), Sum(j.segments, |j.segments|);
            && |o.data| == HeaderOf(Received(j, cbuf, sbuf)).data && o.sessId < TWO32
            && var reply := ReplyTo(b, e, i, j, cbuf, sbuf);
               && WellSized(reply) && HeaderOf(reply).op.outLen <= |out|
               && DecodedContext(HeaderOf(reply)).status == STATUS_SUCC
               && n <= |DecodedOut(reply, out)| && DecodedOut(reply, out)[..n] == Gather(j.segments, |j.segments|)
  {
    RequestReply(j, cbuf, sbuf, b, e, i, out);
  }

  /**
   An oversize cipher job comes back FAILED with the client's output buffer untouched, whatever
   else is in its burst and whatever sessions, pools and devices do.
   */
  lemma OversizeContained(j: Operation, cbuf: seq<Byte>, sbuf: seq<Byte>, b: Burst, e: Engine, i: nat, out: seq<Byte>)
    requires Requests(b, i, j, cbuf, sbuf) && Oversize(j) && j.op.kind == 0 && |out| >= j.op.outLen && b.Served(e)
    ensures var o := Outcome(b, e, i);
            && |o.data| == HeaderOf(Received(j, cbuf, sbuf)).data && o.sessId < TWO32
            && var reply := ReplyTo(b, e, i, j, cbuf, sbuf);
               && Carries(reply, j.op.(status := STATUS_FAILED), [], [], [])
               && DecodedContext(HeaderOf(reply)).status == STATUS_FAILED
               && DecodedOut(reply, out) == out
  {
    var s := Received(j, cbuf, sbuf);
    Arrived(j, cbuf, sbuf);
    EveryJobDecided(b, e, i);
    var o := Outcome(b, e, i);
    ReplyCarries(s, DecodedContext(HeaderOf(s)).(status := StatusCode(o.status), sessId := o.sessId), o.data);
    DecodeDelivers(Reply(s, o), out);
  }

  // ----- creates

  /** A create leaves the burst as it was prepared. */
  lemma CreatePrepared(b: Burst, e: Engine, i: nat)
    requires b.Served(e) && b.setup.Valid() && i < |b.jobs| && b.jobs[i].kind.Creating? && b.jobs[i].sessId < TWO32
    ensures Outcome(b, e, i) == PreOut(b, i) && PreOut(b, i).data == b.jobs[i].data && PreOut(b, i).sessId < TWO32
    ensures PreOut(b, i).status == if Granted(b, i) then Succ else Failed
    ensures !Granted(b, i) ==> PreOut(b, i).sessId == if b.jobs[i].status.Failed? then b.jobs[i].sessId else 0xFFFF_FFFF
  {
    MidKind(b, e, i);
  }

  /** The id of a successful create, in the registry when the create is done and after the burst. */
  ghost predicate Usable(b: Burst, i: nat, id: nat, c: Config)
    requires b.Sized() && i < |b.jobs|
  {
    && Names(b.setup, PreState(b, i + 1), b.channel, id, b.answers[i].pick, c)
    && (Spares(b, b.channel, id) ==> Names(b.setup, PostState(b, |b.jobs|), b.channel, id, b.answers[i].pick, c))
  }

  lemma GrantedUsable(b: Burst, pool: set<Handle>, i: nat, id: nat, c: Config)
    requires Intact(b, pool) && b.channel < MAX_CHANNEL_NUM && i < |b.jobs| && Granted(b, i)
    requires id == PreOut(b, i).sessId && c == Wanted(b.jobs[i])
    ensures Usable(b, i, id, c)
  {
    JustGranted(b, i);
    if Spares(b, b.channel, id) {
      NamesPrepared(b, pool, i + 1, |b.jobs|, b.channel, id, b.answers[i].pick, c);
      NamesPosted(b, pool, |b.jobs|, b.channel, id, b.answers[i].pick, c);
    }
  }

  /** The reply to a buffer that carries a create. */
  lemma ReplyCarriesCreate(s: seq<Byte>, op: Context, data: seq<Byte>, key: seq<Byte>, iv: seq<Byte>, b: Burst, e: Engine, i: nat)
    requires Carries(s, op, data, key, iv) && op.kind == 1
    requires b.Served(e) && b.setup.Valid() && i < |b.jobs| && b.jobs[i] == ServerJob(s)
    ensures var o := PreOut(b, i);
            && o == Outcome(b, e, i) && |o.data| == HeaderOf(s).data && o.sessId < TWO32
            && Carries(Reply(s, o), op.(status := if Granted(b, i) then STATUS_SUCC else STATUS_FAILED, sessId := o.sessId), data, key, iv)
  {
    CreatePrepared(b, e, i);
    var o := PreOut(b, i);
    ReplyCarries(s, op.(status := StatusCode(o.status), sessId := o.sessId), o.data);
  }

  /**
   The reply to a create: the client reads its own context back.  When it says success, the id in
   it names a session of its channel that holds the algorithm, direction and key the client sent;
   and when no job of the burst closes that id, it still does after the burst.
   */
  lemma CreateReply(j: Operation, cbuf: seq<Byte>, sbuf: seq<Byte>, b: Burst, e: Engine, pool: set<Handle>, i: nat)
    requires Requests(b, i, j, cbuf, sbuf) && Sound(j) && j.op.kind == 1 && b.Served(e) && Intact(b, pool) && b.channel < MAX_CHANNEL_NUM
    ensures var o := Outcome(b, e, i);
            |o.data| == HeaderOf(Received(j, cbuf, sbuf)).data && o.sessId < TWO32
    ensures WellSized(ReplyTo(b, e, i, j, cbuf, sbuf))
    ensures var c := DecodedContext(HeaderOf(ReplyTo(b, e, i, j, cbuf, sbuf)));
            && c == j.op.(status := if Granted(b, i) then STATUS_SUCC else STATUS_FAILED, sessId := c.sessId)
            && (!Granted(b, i) ==> c.sessId == if j.op.status == STATUS_FAILED then j.op.sessId else 0xFFFF_FFFF)
            && (Granted(b, i) ==>
                  c.sessId == PreOut(b, i).sessId && Usable(b, i, c.sessId, Config(j.op.algo, j.op.cipherOp, j.key.bytes)))
  {
    Arrived(j, cbuf, sbuf);
    var data := Gather(j.segments, |j.segments|);
    ReplyCarriesCreate(Received(j, cbuf, sbuf), j.op, data, j.key.bytes, j.iv.bytes, b, e, i);
    CreatePrepared(b, e, i);
    if Granted(b, i) {
      GrantedUsable(b, pool, i, PreOut(b, i).sessId, Wanted(b.jobs[i]));
    }
  }

  // ----- closes and jobs of no known kind

  /** The reply to a buffer that carries neither a cipher job nor a create: a verdict, and everything else as it came. */
  lemma ReplyCarriesVerdict(s: seq<Byte>, op: Context, data: seq<Byte>, key: seq<Byte>, iv: seq<Byte>, o: Job)
    requires Carries(s, op, data, key, iv) && op.kind >= 2 && o.data == ServerJob(s).data && o.sessId == ServerJob(s).sessId
    ensures |o.data| == HeaderOf(s).data && o.sessId == op.sessId
    ensures Carries(Reply(s, o), op.(status := StatusCode(o.status)), data, key, iv)
  {
    ReplyCarries(s, op.(status := StatusCode(o.status)), o.data);
  }

  /**
   The reply to a close: the client reads success exactly when the id named a session of its channel
   and no job of the burst in front closed it; after the burst the id names nothing.
   */
  lemma CloseReply(j: Operation, cbuf: seq<Byte>, sbuf: seq<Byte>, b: Burst, e: Engine, i: nat)
    requires Requests(b, i, j, cbuf, sbuf) && Sound(j) && j.op.kind == 2 && b.Served(e)
    ensures var o := Outcome(b, e, i);
            |o.data| == HeaderOf(Received(j, cbuf, sbuf)).data && o.sessId < TWO32
    ensures WellSized(ReplyTo(b, e, i, j, cbuf, sbuf))
    ensures var c := DecodedContext(HeaderOf(ReplyTo(b, e, i, j, cbuf, sbuf)));
            c == j.op.(status := if Lookup(b.setup, PreState(b, |b.jobs|), b.channel, j.op.sessId).Some? && !ClosedBy(b, i, j.op.sessId)
                                 then STATUS_SUCC else STATUS_FAILED)
    ensures Lookup(b.setup, PostState(b, |b.jobs|), b.channel, j.op.sessId) == None
  {
    Arrived(j, cbuf, sbuf);
    var s := Received(j, cbuf, sbuf);
    CloseOutcome(b, e, i);
    ResolvesAtTurn(b, i, j.op.sessId);
    ReplyCarriesVerdict(s, j.op, Gather(j.segments, |j.segments|), j.key.bytes, j.iv.bytes, Outcome(b, e, i));
    assert b.jobs[i].kind.Closing? && b.jobs[i].sessId == j.op.sessId;
    ResolvesAtTurn(b, |b.jobs|, j.op.sessId);
  }

  /** A job of no known kind comes back FAILED. */
  lemma UnknownReply(j: Operation, cbuf: seq<Byte>, sbuf: seq<Byte>, b: Burst, e: Engine, i: nat)
    requires Requests(b, i, j, cbuf, sbuf) && Sound(j) && j.op.kind >= 3 && b.Served(e)
    ensures var o := Outcome(b, e, i);
            |o.data| == HeaderOf(Received(j, cbuf, sbuf)).data && o.sessId < TWO32
    ensures var reply := ReplyTo(b, e, i, j, cbuf, sbuf);
            WellSized(reply) && DecodedContext(HeaderOf(reply)) == j.op.(status := STATUS_FAILED)
  {
    Arrived(j, cbuf, sbuf);
    var s := Received(j, cbuf, sbuf);
    UnknownOutcome(b, e, i);
    ReplyCarriesVerdict(s, j.op, Gather(j.segments, |j.segments|), j.key.bytes, j.iv.bytes, Outcome(b, e, i));
  }

  /**
   From end to end: a client creates a session with a key, reads its id in the reply, and later
   sends a cipher job with that id and a whole vector.  Unless it closed the session or lost its
   connection in between, the device gets exactly the key of the create, the joined segments and
   the vector, and its verdict and result are what the reply carries.
   */
  lemma CreateThenCipher(u: Setup, pool: set<Handle>, states: seq<Registry>, events: seq<Event>, m: nat, n: nat, i: nat, k: nat,
                         j: Operation, cbuf: seq<Byte>, sbuf: seq<Byte>,
                         j': Operation, cbuf': seq<Byte>, sbuf': seq<Byte>, e': Engine)
    requires u.Valid() && IsHistory(u, pool, states, events) && m < n < |events| && events[m].Run? && events[n].Run?
    requires Requests(events[m].burst, i, j, cbuf, sbuf) && Sound(j) && j.op.kind == 1 && Granted(events[m].burst, i)
    requires Requests(events[n].burst, k, j', cbuf', sbuf') && Sound(j') && j'.op.kind == 0 && j'.op.status == 0
    requires events[n].burst.channel == events[m].burst.channel && j'.op.sessId == PreOut(events[m].burst, i).sessId
    requires AllLeave(events, m, n, events[n].burst.channel, j'.op.sessId)
    requires events[n].burst.Served(e') && KeepsLength(e'.cipher) && |j'.iv.bytes| == IV_SIZE && OpsSuffice(events[n].burst, k)
    ensures var b := events[n].burst;
            var (verdict, result) := e'.cipher(Config(j.op.algo, j.op.cipherOp, j.key.bytes), Gather(j'.segments, |j'.segments|), j'.iv.bytes);
            && |Outcome(b, e', k).data| == HeaderOf(Received(j', cbuf', sbuf')).data && Outcome(b, e', k).sessId < TWO32
            && Carries(ReplyTo(b, e', k, j', cbuf', sbuf'),
                       j'.op.(status := if verdict.OpError? then STATUS_FAILED else STATUS_SUCC), result, j'.key.bytes, j'.iv.bytes)
  {
    var b0, b := events[m].burst, events[n].burst;
    Arrived(j, cbuf, sbuf);
    Arrived(j', cbuf', sbuf');
    UnderOwnKey(u, pool, states, events, m, n, i, k);
    ReplyCarriesAnswer(Received(j', cbuf', sbuf'), j'.op, Gather(j'.segments, |j'.segments|), j'.key.bytes, j'.iv.bytes, b, e', k);
    FullVector(b, e', k);
  }
}
