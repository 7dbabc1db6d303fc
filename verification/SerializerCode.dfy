/**
 The serializer over byte arrays, changed in place, proved against the functions of Serializer.
 */
module SerializerCode {
  import opened Basics
  import opened Serializer

  /** A store or a memcpy of bytes that lie elsewhere. */
  method StoreBytes(a: array<Byte>, off: nat, bs: seq<Byte>)
    requires off + |bs| <= a.Length
    modifies a
    ensures a[..] == Splice(old(a[..]), off, bs)
  {
    ghost var before := a[..];
    for i := 0 to |bs|
      invariant a[..] == Splice(before, off, bs[..i])
    {
      a[off + i] := bs[i];
      SpliceOne(before, off, bs, i);
    }
    assert bs[..|bs|] == bs;
  }

  lemma SpliceOne(buf: seq<Byte>, off: nat, bs: seq<Byte>, i: nat)
    requires off + |bs| <= |buf| && i < |bs|
    ensures Splice(buf, off, bs[..i])[off + i := bs[i]] == Splice(buf, off, bs[..i + 1])
  {
  }

  method StoreFields(a: array<Byte>, vs: seq<nat>, n: nat)
    requires n <= FIELDS == |vs| && CONTEXT_SIZE + LENGTHS_SIZE <= a.Length
    modifies a
    ensures a[..] == PutFields(old(a[..]), vs, n)
  {
    for k := 0 to n
      invariant a[..] == PutFields(old(a[..]), vs, k)
    {
      StoreBytes(a, OFFSETS[k], Le(vs[k], WIDTHS[k]));
    }
  }

  method StoreBuff(a: array<Byte>, off: nat, b: Buff)
    requires off + b.Length() <= a.Length
    modifies a
    ensures a[..] == Put(old(a[..]), off, b)
  {
    if b.Buff? {
      StoreBytes(a, off, b.bytes);
    }
  }

  /** The 32-bit sum of the segment lengths. */
  method TotalLength(segs: seq<Buff>) returns (total: u32)
    ensures total == Sum(segs, |segs|) % TWO32
  {
    var t := 0;
    for i := 0 to |segs|
      invariant t == Sum(segs, i) % TWO32
    {
      t := (t + segs[i].Length()) % TWO32;
    }
    total := t;
  }

  method StoreHead(a: array<Byte>, h: Header)
    requires CONTEXT_SIZE + LENGTHS_SIZE <= a.Length
    modifies a
    ensures a[..] == StoreHeader(old(a[..]), h)
  {
    StoreFields(a, Values(h), FIELDS);
  }

  /** crypto_job_to_buffer. */
  method JobToBuffer(a: array<Byte>, j: Operation) returns (len: nat)
    requires Encodable(a[..], j)
    modifies a
    ensures a[..] == Encode(old(a[..]), j)
    ensures len == if Oversize(j) then CONTEXT_SIZE + LENGTHS_SIZE else KEY + j.key.Length() + j.iv.Length()
  {
    var total := TotalLength(j.segments);
    if total > BUFF_SIZE {
      StoreHead(a, Header(j.op.(status := STATUS_FAILED), 0, 0, 0));
      return CONTEXT_SIZE + LENGTHS_SIZE;
    }
    StoreHead(a, Header(j.op, total, j.key.Length(), j.iv.Length()));
    len := StorePayload(a, j);
  }

  /** Everything behind the headroom. */
  method StorePayload(a: array<Byte>, j: Operation) returns (len: nat)
    requires Encodable(a[..], j) && !Oversize(j)
    modifies a
    ensures a[..] == Put(Put(PutSegments(old(a[..]), j.segments, |j.segments|), KEY, j.key), KEY + j.key.Length(), j.iv)
    ensures len == KEY + j.key.Length() + j.iv.Length()
  {
    len := CONTEXT_SIZE + LENGTHS_SIZE + BUFF_HEADROOM;
    var next := len + BUFF_SIZE;
    StoreSegments(a, j.segments);
    len := next;
    StoreBuff(a, len, j.key);
    len := len + j.key.Length();
    StoreBuff(a, len, j.iv);
    len := len + j.iv.Length();
  }

  method StoreSegments(a: array<Byte>, segs: seq<Buff>)
    requires DATA + Sum(segs, |segs|) <= a.Length
    modifies a
    ensures a[..] == PutSegments(old(a[..]), segs, |segs|)
  {
    var at := DATA;
    SumMonotone(segs, 0, |segs|);
    for i := 0 to |segs|
      invariant at == DATA + Sum(segs, i) <= a.Length
      invariant a[..] == PutSegments(old(a[..]), segs, i)
    {
      SumMonotone(segs, i + 1, |segs|);
      StoreBuff(a, at, segs[i]);
      at := at + segs[i].Length();
    }
  }

  /** ctx_to_buffer. */
  method CtxToBuffer(a: array<Byte>, op: Context) returns (len: nat)
    requires CONTEXT_SIZE + LENGTHS_SIZE <= a.Length
    modifies a
    ensures a[..] == StoreContext(old(a[..]), op) && len == CONTEXT_SIZE
  {
    StoreFields(a, Values(Header(op, 0, 0, 0)), CONTEXT_FIELDS);
    len := CONTEXT_SIZE;
  }

  /** crypto_job_from_buffer; the data, key and vector of the job stay in the buffer. */
  method JobFromBuffer(a: array<Byte>, out: array<Byte>) returns (op: Context, data: u32, key: u32, iv: u32)
    requires WellSized(a[..]) && a != out && out.Length >= HeaderOf(a[..]).op.outLen
    modifies out
    ensures op == DecodedContext(HeaderOf(a[..])) && Header(op, data, key, iv) == HeaderOf(a[..]).(op := op)
    ensures out[..] == DecodedOut(a[..], old(out[..]))
  {
    var h := HeaderOf(a[..]);
    op, data, key, iv := h.op, h.data, h.key, h.iv;
    if op.kind == 0 && op.status == STATUS_SUCC {
      if op.outPtr != 0 && data <= op.outLen {
        StoreBytes(out, 0, a[DATA..DATA + data]);
        op := op.(outLen := data);
      } else {
        op := op.(status := STATUS_FAILED);
      }
    }
  }

  /** copy_buffer_to_buffer. */
  method CopyBufferToBuffer(inb: array<Byte>, outb: array<Byte>)
    requires inb != outb && WellSized(inb[..])
    requires KEY + HeaderOf(inb[..]).key + HeaderOf(inb[..]).iv <= outb.Length
    modifies outb
    ensures outb[..] == Copy(inb[..], old(outb[..]))
  {
    var h := HeaderOf(inb[..]);
    StoreHead(outb, h);
    StoreBytes(outb, DATA, inb[DATA..DATA + h.data]);
    StoreBytes(outb, KEY, inb[KEY..KEY + h.key]);
    StoreBytes(outb, KEY + h.key, inb[KEY + h.key..KEY + h.key + h.iv]);
  }
}
