/**
 The bytes of a job buffer: which number lies where, lowest byte first, and where segments, key and
 vector are.
 */
module WireFormat {
  import opened Basics
  import opened Serializer
  import opened SerializerTheorems

  /** Byte i of a number is its i-th digit to base 256, lowest first. */
  lemma {:induction false} LeByte(v: nat, w: nat, i: nat)
    requires i < w
    ensures Le(v, w)[i] as nat == (v / Place(i)) % 256
  {
    if i > 0 {
      LeByte(v / 256, w - 1, i - 1);
      DigitsShift(v, Place(i - 1));
    }
  }

  /** What a digit at place i counts. */
  function Place(i: nat): (p: nat)
    ensures p > 0
  {
    if i == 0 then 1 else 256 * Place(i - 1)
  }

  lemma DigitsShift(v: nat, m: nat)
    requires m > 0
    ensures (v / 256) / m == v / (256 * m)
  {
    var a, b := v / 256, v % 256;
    var q, t := a / m, a % m;
    assert v == 256 * (q * m + t) + b;
    assert v == q * (256 * m) + (256 * t + b);
    assert 256 * t + b < 256 * m;
    QuotientIs(v, 256 * m, q, 256 * t + b);
  }

  lemma QuotientIs(v: nat, m: nat, q: nat, t: nat)
    requires v == q * m + t && t < m
    ensures v / m == q
  {
    if v / m < q {
      MulOrder(v / m + 1, q, m);
    } else if v / m > q {
      MulOrder(q + 1, v / m, m);
    }
  }

  lemma MulOrder(a: nat, b: nat, m: nat)
    requires a <= b
    ensures a * m <= b * m
  {
  }

  /** These bytes hold this number, lowest byte first. */
  ghost predicate Number(buf: seq<Byte>, from: nat, to: nat, v: nat) {
    from <= to <= |buf| && Spells(buf[from..to], v)
  }

  ghost predicate Spells(bs: seq<Byte>, v: nat) { bs == Le(v, |bs|) }

  /** The bytes of field k after field m has been stored. */
  lemma FieldAfter(buf: seq<Byte>, m: nat, bs: seq<Byte>, k: nat, a: nat, b: nat)
    requires k < FIELDS && m < FIELDS && HEADER <= |buf| && |bs| == WIDTHS[m] && a == OFFSETS[k] && b == OFFSETS[k] + WIDTHS[k]
    ensures Splice(buf, OFFSETS[m], bs)[a..b] == if k == m then bs else buf[a..b]
  {
    if k == m {
      SpliceAt(buf, OFFSETS[m], bs);
    } else {
      FieldsApart(k, m);
      SpliceElsewhere(buf, OFFSETS[m], bs, a, b);
    }
  }

  lemma {:induction false} FieldStored(buf: seq<Byte>, vs: seq<nat>, n: nat, k: nat, a: nat, b: nat)
    requires k < n <= FIELDS == |vs| && HEADER <= |buf| && a == OFFSETS[k] && b == OFFSETS[k] + WIDTHS[k]
    ensures Number(PutFields(buf, vs, n), a, b, vs[k])
  {
    FieldInHeader(k);
    FieldAfter(PutFields(buf, vs, n - 1), n - 1, Le(vs[n - 1], WIDTHS[n - 1]), k, a, b);
    if k < n - 1 {
      FieldStored(buf, vs, n - 1, k, a, b);
    }
  }

  /** Bytes between the fields are never touched. */
  lemma {:induction false} PaddingKept(buf: seq<Byte>, vs: seq<nat>, n: nat, a: nat, b: nat)
    requires n <= FIELDS == |vs| && HEADER <= |buf| && a <= b <= |buf|
    requires forall k :: 0 <= k < FIELDS ==> b <= OFFSETS[k] || OFFSETS[k] + WIDTHS[k] <= a
    ensures PutFields(buf, vs, n)[a..b] == buf[a..b]
  {
    if n > 0 {
      PaddingKept(buf, vs, n - 1, a, b);
      SpliceElsewhere(PutFields(buf, vs, n - 1), OFFSETS[n - 1], Le(vs[n - 1], WIDTHS[n - 1]), a, b);
    }
  }

  /** Where a stored context has which number. */
  ghost predicate Context64(buf: seq<Byte>, op: Context) { FrontOf(buf, op) && RearOf(buf, op) }

  ghost predicate FrontOf(buf: seq<Byte>, op: Context) {
    && Number(buf, 0, 4, op.status) && Number(buf, 8, 16, op.ctxPtr) && Number(buf, 16, 24, op.outPtr)
    && Number(buf, 24, 28, op.outLen) && Number(buf, 32, 40, op.seqNo)
  }

  ghost predicate RearOf(buf: seq<Byte>, op: Context) {
    && Number(buf, 40, 44, op.kind) && Number(buf, 44, 48, op.sessId) && Number(buf, 48, 52, op.algo)
    && Number(buf, 52, 56, op.cipherOp) && Number(buf, 56, 60, op.reserved)
  }

  /** The values of the fields of a context, in the order they are stored. */
  ghost predicate FrontValues(vs: seq<nat>, op: Context) {
    |vs| == FIELDS && vs[0] == op.status && vs[1] == op.ctxPtr && vs[2] == op.outPtr && vs[3] == op.outLen && vs[4] == op.seqNo
  }

  ghost predicate RearValues(vs: seq<nat>, op: Context) {
    |vs| == FIELDS && vs[5] == op.kind && vs[6] == op.sessId && vs[7] == op.algo && vs[8] == op.cipherOp && vs[9] == op.reserved
  }

  lemma FrontLayout(buf: seq<Byte>, vs: seq<nat>, op: Context, n: nat)
    requires HEADER <= |buf| && FrontValues(vs, op) && CONTEXT_FIELDS <= n <= FIELDS
    ensures FrontOf(PutFields(buf, vs, n), op)
  {
    FieldStored(buf, vs, n, 0, 0, 4);
    FieldStored(buf, vs, n, 1, 8, 16);
    FieldStored(buf, vs, n, 2, 16, 24);
    FieldStored(buf, vs, n, 3, 24, 28);
    FieldStored(buf, vs, n, 4, 32, 40);
  }

  lemma RearLayout(buf: seq<Byte>, vs: seq<nat>, op: Context, n: nat)
    requires HEADER <= |buf| && RearValues(vs, op) && CONTEXT_FIELDS <= n <= FIELDS
    ensures RearOf(PutFields(buf, vs, n), op)
  {
    FieldStored(buf, vs, n, 5, 40, 44);
    FieldStored(buf, vs, n, 6, 44, 48);
    FieldStored(buf, vs, n, 7, 48, 52);
    FieldStored(buf, vs, n, 8, 52, 56);
    FieldStored(buf, vs, n, 9, 56, 60);
  }

  /** A stored header, byte by byte: the ten fields of the context where the C structure has them, three lengths behind, padding untouched. */
  lemma WireLayout(buf: seq<Byte>, h: Header)
    requires HEADER <= |buf|
    ensures var r := StoreHeader(buf, h);
            && Context64(r, h.op) && Number(r, 64, 68, h.data) && Number(r, 68, 72, h.key) && Number(r, 72, 76, h.iv)
            && r[4..8] == buf[4..8] && r[28..32] == buf[28..32] && r[60..64] == buf[60..64] && r[76..] == buf[76..]
  {
    var vs, r := Values(h), StoreHeader(buf, h);
    FrontLayout(buf, vs, h.op, FIELDS);
    RearLayout(buf, vs, h.op, FIELDS);
    FieldStored(buf, vs, FIELDS, 10, 64, 68);
    FieldStored(buf, vs, FIELDS, 11, 68, 72);
    FieldStored(buf, vs, FIELDS, 12, 72, 76);
    PaddingKept(buf, vs, FIELDS, 4, 8);
    PaddingKept(buf, vs, FIELDS, 28, 32);
    PaddingKept(buf, vs, FIELDS, 60, 64);
    PaddingKept(buf, vs, FIELDS, 76, |buf|);
    assert r[76..] == r[76..|buf|] && buf[76..] == buf[76..|buf|];
  }

  /** ctx_to_buffer stores the context and leaves everything behind it. */
  lemma ContextWire(buf: seq<Byte>, op: Context)
    requires HEADER <= |buf|
    ensures var r := StoreContext(buf, op);
            Context64(r, op) && r[60..] == buf[60..]
  {
    var h := Header(op, 0, 0, 0);
    FrontLayout(buf, Values(h), op, CONTEXT_FIELDS);
    RearLayout(buf, Values(h), op, CONTEXT_FIELDS);
    BehindContext(buf, Values(h), CONTEXT_FIELDS);
    assert buf[60..] == buf[60..|buf|];
    assert StoreContext(buf, op)[60..] == StoreContext(buf, op)[60..|buf|];
  }

  lemma {:induction false} BehindContext(buf: seq<Byte>, vs: seq<nat>, n: nat)
    requires HEADER <= |buf| && n <= CONTEXT_FIELDS && |vs| == FIELDS
    ensures PutFields(buf, vs, n)[60..|buf|] == buf[60..|buf|]
  {
    if n > 0 {
      BehindContext(buf, vs, n - 1);
      SpliceElsewhere(PutFields(buf, vs, n - 1), OFFSETS[n - 1], Le(vs[n - 1], WIDTHS[n - 1]), 60, |buf|);
    }
  }

  ghost predicate InPlace(bs: seq<Byte>, x: Buff, was: seq<Byte>) { bs == if x.Buff? then x.bytes else was }

  /** What a stored segment leaves in its place: its bytes, or what was there when it is null. */
  lemma PutAt(buf: seq<Byte>, off: nat, x: Buff, end: nat)
    requires end == off + x.Length() <= |buf|
    ensures InPlace(Put(buf, off, x)[off..end], x, buf[off..end])
  {
    if x.Buff? {
      SpliceAt(buf, off, x.bytes);
    }
  }

  /** Every segment lies behind those before it; the place of a null one keeps what the buffer held. */
  lemma {:induction false} SegmentAt(buf: seq<Byte>, segs: seq<Buff>, n: nat, k: nat, a: nat, b: nat)
    requires k < n <= |segs| && DATA + Sum(segs, n) <= |buf| && a == DATA + Sum(segs, k) && b == DATA + Sum(segs, k + 1)
    ensures b <= DATA + Sum(segs, n) && InPlace(PutSegments(buf, segs, n)[a..b], segs[k], buf[a..b])
  {
    var before := PutSegments(buf, segs, n - 1);
    if k == n - 1 {
      SegmentsElsewhere(buf, segs, n - 1, a, b);
      PutAt(before, a, segs[k], b);
    } else {
      SumMonotone(segs, k + 1, n - 1);
      SegmentAt(buf, segs, n - 1, k, a, b);
      PutElsewhere(before, DATA + Sum(segs, n - 1), segs[n - 1], a, b);
    }
  }

  /** An encoded job: segment k in the data area at 108, the key at 9108, the vector behind it. */
  lemma EncodedBytes(buf: seq<Byte>, j: Operation, k: nat)
    requires Encodable(buf, j) && Sound(j) && k < |j.segments|
    ensures Sum(j.segments, k + 1) <= 9000
    ensures var r := Encode(buf, j);
            && r[108 + Sum(j.segments, k)..108 + Sum(j.segments, k + 1)] == j.segments[k].bytes
            && r[9108..9108 + |j.key.bytes|] == j.key.bytes
            && r[9108 + |j.key.bytes|..9108 + |j.key.bytes| + |j.iv.bytes|] == j.iv.bytes
  {
    EncodeHeader(buf, j);
    EncodeCarries(buf, j);
    var n := |j.segments|;
    SumMonotone(j.segments, k + 1, n);
    var r := StoreHeader(buf, EncodedHeader(j));
    var s := PutSegments(r, j.segments, n);
    var a, b := DATA + Sum(j.segments, k), DATA + Sum(j.segments, k + 1);
    SegmentAt(r, j.segments, n, k, a, b);
    PutElsewhere(s, KEY, j.key, a, b);
    PutElsewhere(Put(s, KEY, j.key), KEY + j.key.Length(), j.iv, a, b);
  }

  /** Up to 9000 bytes fit. */
  lemma OversizeLimit(j: Operation)
    requires Sum(j.segments, |j.segments|) < 0x1_0000_0000
    ensures Oversize(j) <==> Sum(j.segments, |j.segments|) > 9000
  {
  }
}
