/**
 The client's send loop: jobs are serialized into whatever buffers the ring gives, and transmitted.
 */
module BurstLoops {
  import opened Arith
  import opened Basics
  import opened RingMachine
  import opened RingProofs
  import opened RingCode

  const SEND_SIZE: nat := 16384 // the size the client allocates with

  /** Buffer i of n is the second of a pair: pairs are taken while more than two buffers are left. */
  predicate SecondOfPair(n: nat, i: nat) { i % 2 == 1 && n > i + 1 }

  /**
   The index the serializer is called with for buffer i of a chunk of n that starts with job
   `start`.  The counter has 16 bits; the second of a pair is one more than the counter, and that
   sum is not truncated.
   */
  function IndexIn(start: nat, n: nat, i: nat): nat
    requires i < n
  {
    if SecondOfPair(n, i) then Wrap(start + i - 1) + 1 else Wrap(start + i)
  }

  function ChunkIndices(start: nat, n: nat, m: nat): (s: seq<nat>)
    requires m <= n
    ensures |s| == m && forall i :: 0 <= i < m ==> s[i] == IndexIn(start, n, i)
  {
    if m == 0 then [] else ChunkIndices(start, n, m - 1) + [IndexIn(start, n, m - 1)]
  }

  function Total(chunks: seq<nat>): nat {
    if chunks == [] then 0 else Total(chunks[..|chunks| - 1]) + chunks[|chunks| - 1]
  }

  /** A pattern of allocations that adds up to a send of `size` jobs. */
  ghost predicate Chunking(chunks: seq<nat>, size: nat) {
    Total(chunks) == size && forall i :: 0 <= i < |chunks| ==> chunks[i] <= MAX_MEMIF_BUFS
  }

  /** The job each packet of a send carries, packet by packet. */
  function Serialized(chunks: seq<nat>): (s: seq<nat>)
    ensures |s| == Total(chunks)
  {
    if chunks == [] then []
    else
      var n := |chunks| - 1;
      Serialized(chunks[..n]) + ChunkIndices(Total(chunks[..n]), chunks[n], chunks[n])
  }

  /** Packet k carries the 16-bit index of job k, or one more than that of job k - 1, and then at least one more packet follows. */
  lemma {:induction false} SerializedAt(chunks: seq<nat>, k: nat)
    requires k < Total(chunks)
    ensures || Serialized(chunks)[k] == Wrap(k)
            || (0 < k && k + 2 <= Total(chunks) && Serialized(chunks)[k] == Wrap(k - 1) + 1)
    decreases |chunks|
  {
    var n := |chunks| - 1;
    var start := Total(chunks[..n]);
    if k < start {
      SerializedAt(chunks[..n], k);
    } else {
      assert Serialized(chunks)[k] == IndexIn(start, chunks[n], k - start);
    }
  }

  /** Every job is serialized exactly once, in order. */
  ghost predicate EachOnce(chunks: seq<nat>) { forall k :: 0 <= k < Total(chunks) ==> Serialized(chunks)[k] == k }

  /**
   Whatever the ring allocates each time, every job is serialized exactly once, in order, if and
   only if there are at most 65536 of them.
   */
  lemma SerializedOnceIff(chunks: seq<nat>, size: nat)
    requires Chunking(chunks, size)
    ensures EachOnce(chunks) <==> size <= 65536
  {
    if size <= 65536 {
      forall k | 0 <= k < size ensures Serialized(chunks)[k] == k {
        SerializedAt(chunks, k);
      }
    } else if size == 65537 {
      LastOf65537(chunks);
    } else {
      Job65537(chunks);
    }
  }

  /** A send of 65537 jobs always passes 0 for the last: job 65535 would have to start a pair, and no third buffer is left for that. */
  lemma LastOf65537(chunks: seq<nat>)
    requires Total(chunks) == 65537
    ensures Serialized(chunks)[65536] == 0
  {
    SerializedAt(chunks, 65536);
    WrapIsRemainder(65536);
  }

  /** A longer send never passes job 65537's own index. */
  lemma Job65537(chunks: seq<nat>)
    requires Total(chunks) >= 65538
    ensures Serialized(chunks)[65537] == 1
  {
    SerializedAt(chunks, 65537);
    WrapIsRemainder(65536);
    WrapIsRemainder(65537);
  }

  /** The untruncated sum shows: when job 65535 starts a pair, job 65536 gets its own index. */
  lemma PairPastTheWrap(n: nat)
    requires n >= 3
    ensures IndexIn(65535, n, 0) == 65535 && IndexIn(65535, n, 1) == 65536
    ensures IndexIn(65535, 2, 1) == 0
  {
    WrapIsRemainder(65536);
  }

  /** The serializer: what the job of this index becomes in a buffer. */
  type Serialize = nat -> Packet

  function Messages(ser: Serialize, indices: seq<nat>): (ps: seq<Packet>)
    ensures |ps| == |indices| && forall k :: 0 <= k < |indices| ==> ps[k] == ser(indices[k])
  {
    seq(|indices|, k requires 0 <= k < |indices| => ser(indices[k]))
  }

  class Client {
    const ring: Ring
    var txCounter: nat

    /** Between two passes the client holds no buffer. */
    ghost predicate Valid()
      reads this, ring
    {
      RingReady() && ring.held == []
    }

    ghost predicate RingReady()
      reads this, ring
    {
      ring.Valid() && ring.prodPhase.PIdle? && SEND_SIZE <= ring.c.bufferSize
    }

    constructor (ring: Ring)
      requires ring.Valid() && ring.prodPhase.PIdle? && SEND_SIZE <= ring.c.bufferSize && ring.held == []
      ensures Valid() && this.ring == ring && txCounter == 0
    {
      this.ring, txCounter := ring, 0;
    }

    /** The first n of the buffers held carry these messages. */
    ghost predicate Filled(messages: seq<Packet>, n: nat, published: seq<Packet>, room: int)
      reads this, ring
    {
      RingReady() && ring.published == published && room <= ring.released && Carried(messages, n)
    }

    ghost predicate Carried(messages: seq<Packet>, n: nat)
      reads ring
    {
      && n <= |messages| == |ring.held|
      && (forall k :: 0 <= k < n ==>
            && ring.held[k].len == messages[k].len
            && ring.held[k].data in ring.mem && ring.mem[ring.held[k].data] == messages[k].data)
    }

    /** serialize into buffer i, after the server has run for as long as it likes. */
    method Put(i: nat, message: Packet, ghost messages: seq<Packet>, ghost published: seq<Packet>, ghost room: int)
      requires i < |messages| && message == messages[i] && Filled(messages, i, published, room)
      modifies ring
      ensures Filled(messages, i + 1, published, room)
    {
      ring.Yield(false);
      ghost var held := ring.held;
      ReachableInv(ring.c, ring.Snapshot());
      forall k | 0 <= k < i ensures held[k].data != held[i].data {
        HeldApart(ring.c, ring.Snapshot(), k, i);
      }
      ring.WriteBuffer(i, message.len, message.data);
    }

    /** Two jobs at a time. */
    method PutPair(ser: Serialize, i: nat, ind: u16, ghost messages: seq<Packet>, ghost published: seq<Packet>, ghost room: int)
      requires i + 1 < |messages| && messages[i] == ser(ind) && messages[i + 1] == ser(ind + 1) && Filled(messages, i, published, room)
      modifies ring
      ensures Filled(messages, i + 2, published, room)
    {
      Put(i, ser(ind), messages, published, room);
      Put(i + 1, ser(ind + 1), messages, published, room);
    }

    /** The inner loop: pairs while more than two buffers are left. */
    method FillPairs(ser: Serialize, count: nat, from: nat, first: u16, ghost start: nat, ghost messages: seq<Packet>, ghost published: seq<Packet>, ghost room: int)
      returns (i: nat, ind: u16)
      requires from < count && (from % 2 == 1 ==> count == from + 1) && first == Wrap(start + from)
      requires messages == Messages(ser, ChunkIndices(start, count, count)) && Filled(messages, from, published, room)
      modifies ring
      ensures from <= i < count <= i + 2 && (i % 2 == 1 ==> count == i + 1) && ind == Wrap(start + i)
      ensures Filled(messages, i, published, room)
    {
      i, ind := from, first;
      while count - i > 2
        invariant from <= i < count && (i % 2 == 1 ==> count == i + 1) && ind == Wrap(start + i)
        invariant Filled(messages, i, published, room)
      {
        PairAt(start, count, i);
        PutPair(ser, i, ind, messages, published, room);
        i, ind := i + 2, Wrap(ind + 2);
      }
    }

    /** The two nested serializing loops: two jobs at a time while more than two buffers are left, then one. */
    method FillBuffers(ser: Serialize, count: nat, first: u16, ghost start: nat, ghost published: seq<Packet>, ghost room: int) returns (ind: u16)
      requires first == Wrap(start) && Filled(Messages(ser, ChunkIndices(start, count, count)), 0, published, room)
      modifies ring
      ensures Filled(Messages(ser, ChunkIndices(start, count, count)), count, published, room)
      ensures ind == Wrap(start + count)
    {
      ghost var messages := Messages(ser, ChunkIndices(start, count, count));
      var i := 0;
      ind := first;
      while count - i > 0
        invariant 0 <= i <= count && (i % 2 == 1 ==> count <= i + 1) && ind == Wrap(start + i)
        invariant Filled(messages, i, published, room)
      {
        i, ind := FillSome(ser, count, i, ind, start, messages, published, room);
      }
    }

    /** One pass of the outer loop. */
    method FillSome(ser: Serialize, count: nat, from: nat, first: u16, ghost start: nat,
                    ghost messages: seq<Packet>, ghost published: seq<Packet>, ghost room: int) returns (i: nat, ind: u16)
      requires from < count && (from % 2 == 1 ==> count == from + 1) && first == Wrap(start + from)
      requires messages == Messages(ser, ChunkIndices(start, count, count)) && Filled(messages, from, published, room)
      modifies ring
      ensures from < i <= count && (i % 2 == 1 ==> count <= i + 1) && ind == Wrap(start + i)
      ensures Filled(messages, i, published, room)
    {
      i, ind := FillPairs(ser, count, from, first, start, messages, published, room);
      SingleAt(start, count, i);
      Put(i, ser(ind), messages, published, room);
      i, ind := i + 1, Wrap(ind + 1);
    }

    /** All buffers held are transmitted. */
    method Transmit(count: u16, ghost messages: seq<Packet>, ghost published: seq<Packet>, ghost room: int) returns (tx: nat)
      requires count == |messages| && Filled(messages, count, published, room)
      modifies ring
      ensures Valid() && tx == count && ring.published == published + messages && room <= ring.released
    {
      ring.Yield(false);
      ghost var mem, held := ring.mem, ring.held;
      tx := ring.TxBurst(count);
      assert held[..tx] == held && PacketsOf(mem, held) == messages;
    }

    /** As many buffers as are asked for, or as many as are free; the server may only have freed more by then. */
    method Alloc(count: u16) returns (n: nat)
      requires Valid()
      modifies ring
      ensures RingReady() && ring.published == old(ring.published) && old(ring.released) <= ring.released && |ring.held| == n
      ensures n <= count && Min(count, old(ring.released) + ring.c.Size() - old(|ring.published|)) <= n
    {
      ring.Yield(false);
      ReachableInv(ring.c, ring.Snapshot());
      var bufs, full := ring.BufferAlloc(count, SEND_SIZE);
      n := |bufs|;
    }

    /** One pass of the send loop: allocate, serialize, transmit. */
    method SendSome(ser: Serialize, count: u16, first: u16, ghost start: nat) returns (n: nat, ind: u16)
      requires Valid() && count <= MAX_MEMIF_BUFS && first == Wrap(start)
      modifies ring
      ensures Valid() && n <= count && ind == Wrap(start + n)
      ensures Min(count, old(ring.released) + ring.c.Size() - old(|ring.published|)) <= n && old(ring.released) <= ring.released
      ensures ring.published == old(ring.published) + Messages(ser, ChunkIndices(start, n, n))
    {
      ghost var published, room := ring.published, ring.released;
      var count' := Alloc(count);
      ind := FillBuffers(ser, count', first, start, published, room);
      n := Transmit(count', Messages(ser, ChunkIndices(start, count', count')), published, room);
    }

    /** The chunks sent so far carry the jobs before those left. */
    ghost predicate Sending(ser: Serialize, size: nat, left: nat, chunks: seq<nat>, published: seq<Packet>, room: int)
      reads this, ring
    {
      && Valid() && left <= size && Chunking(chunks, size - left) && Sent(ser, chunks, published)
      && room <= ring.released && Prompt(size, size - left, |chunks|, room + ring.c.Size() - |published|)
    }

    ghost predicate Sent(ser: Serialize, chunks: seq<nat>, published: seq<Packet>)
      reads ring
    {
      ring.published == published + Messages(ser, Serialized(chunks))
    }

    method SendNext(ser: Serialize, size: nat, left: nat, first: u16, ghost chunks: seq<nat>, ghost published: seq<Packet>, ghost room: int)
      returns (n: nat, ind: u16)
      requires Sending(ser, size, left, chunks, published, room) && first == Wrap(size - left)
      modifies ring
      ensures n <= left && Sending(ser, size, left - n, chunks + [n], published, room) && ind == Wrap(size - left + n)
    {
      n, ind := SendSome(ser, if MAX_MEMIF_BUFS > left then left else MAX_MEMIF_BUFS, first, size - left);
      OneMoreSent(ser, chunks, n, published);
      PromptNext(size, size - left, |chunks|, room + ring.c.Size() - |published|, n);
    }

    /**
     send, for at most `passes` passes: whatever the ring gives each time, one packet per job leaves,
     filled chunk by chunk.  `left` jobs have not been sent when the passes are used up; at least as
     many have been as bursts of 64 and the slots free at the start allow.
     */
    method Send(ser: Serialize, size: nat, passes: nat) returns (left: nat, ghost chunks: seq<nat>)
      requires Valid()
      modifies this, ring
      ensures Valid() && left <= size && Chunking(chunks, size - left) && (left > 0 ==> |chunks| == passes)
      ensures Min(Min(size, MAX_MEMIF_BUFS * passes), old(ring.released) + ring.c.Size() - old(|ring.published|)) <= size - left
      ensures ring.published == old(ring.published) + Messages(ser, Serialized(chunks))
      ensures txCounter == old(txCounter) + (size - left)
    {
      var ind: u16, again := 0, passes;
      left, chunks := size, [];
      ghost var published, room := ring.published, ring.released;
      assert published + Messages(ser, Serialized([])) == published;
      while left > 0 && again > 0
        invariant Sending(ser, size, left, chunks, published, room) && ind == Wrap(size - left)
        invariant |chunks| + again == passes && txCounter == old(txCounter) + (size - left)
      {
        var n;
        n, ind := SendNext(ser, size, left, ind, chunks, published, room);
        chunks, txCounter := chunks + [n], txCounter + n;
        left, again := left - n, again - 1;
      }
    }
  }

  /** After these passes as many jobs have been sent as bursts of 64 and the slots free at the start allow. */
  ghost predicate Prompt(size: nat, sent: nat, passes: nat, free: int) {
    Min(Min(size, MAX_MEMIF_BUFS * passes), free) <= sent
  }

  lemma PromptNext(size: nat, sent: nat, passes: nat, free: int, n: nat)
    requires sent <= size && Prompt(size, sent, passes, free) && Min(Min(MAX_MEMIF_BUFS, size - sent), free - sent) <= n
    ensures Prompt(size, sent + n, passes + 1, free)
  {
  }

  lemma OneMoreSent(ser: Serialize, chunks: seq<nat>, n: nat, published: seq<Packet>)
    ensures Total(chunks + [n]) == Total(chunks) + n
    ensures published + Messages(ser, Serialized(chunks + [n])) ==
            published + Messages(ser, Serialized(chunks)) + Messages(ser, ChunkIndices(Total(chunks), n, n))
  {
    OneMoreChunk(chunks, n);
    MoreMessages(ser, Serialized(chunks), ChunkIndices(Total(chunks), n, n));
    Joins(published, Messages(ser, Serialized(chunks)), Messages(ser, ChunkIndices(Total(chunks), n, n)));
  }

  lemma MoreMessages(ser: Serialize, a: seq<nat>, b: seq<nat>)
    ensures Messages(ser, a + b) == Messages(ser, a) + Messages(ser, b)
  {
  }

  lemma PairAt(start: nat, n: nat, i: nat)
    requires i + 2 < n && i % 2 == 0
    ensures IndexIn(start, n, i) == Wrap(start + i) && IndexIn(start, n, i + 1) == Wrap(start + i) + 1
    ensures Wrap(Wrap(start + i) + 2) == Wrap(start + (i + 2)) && (i + 2) % 2 == 0
  {
    WrapAdd(start + i, 2);
  }

  lemma SingleAt(start: nat, n: nat, i: nat)
    requires i < n && (i % 2 == 1 ==> i + 1 == n)
    ensures IndexIn(start, n, i) == Wrap(start + i) && Wrap(Wrap(start + i) + 1) == Wrap(start + (i + 1))
  {
    WrapAdd(start + i, 1);
  }

  lemma OneMoreChunk(chunks: seq<nat>, n: nat)
    ensures Total(chunks + [n]) == Total(chunks) + n
    ensures Serialized(chunks + [n]) == Serialized(chunks) + ChunkIndices(Total(chunks), n, n)
  {
    assert (chunks + [n])[..|chunks|] == chunks;
  }
}
