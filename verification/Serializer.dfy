/**
 The job buffer: operation context, three lengths, headroom, a data area of fixed size, key, vector.

 Numbers are little-endian and fields lie where the C structures put them; padding is never touched.
 */
module Serializer {
  import opened Basics

  const CONTEXT_SIZE: nat := 64
  const LENGTHS_SIZE: nat := 12
  const BUFF_HEADROOM: nat := 32
  const BUFF_SIZE: nat := 9000
  const DATA: nat := 108  // CONTEXT_SIZE + LENGTHS_SIZE + BUFF_HEADROOM
  const KEY: nat := 9108  // DATA + BUFF_SIZE
  const TWO32: nat := 0x1_0000_0000

  type u32 = x: nat | x < 0x1_0000_0000
  type u64 = x: nat | x < 0x1_0000_0000_0000_0000

  const STATUS_SUCC: u32 := 1
  const STATUS_FAILED: u32 := 2

  datatype Context = Context(
    status: u32, ctxPtr: u64, outPtr: u64, outLen: u32, seqNo: u64,
    kind: u32, sessId: u32, algo: u32, cipherOp: u32, reserved: u32)

  /** A buffer of the caller: a length, and data unless the pointer is null. */
  datatype Buff = Null(length: u32) | Buff(bytes: seq<Byte>) {
    ghost predicate Valid() { Buff? ==> |bytes| < TWO32 }
    function Length(): nat { if Null? then length else |bytes| }
  }

  datatype Operation = Operation(op: Context, segments: seq<Buff>, key: Buff, iv: Buff) {
    ghost predicate Valid() {
      && key.Valid() && iv.Valid() && (forall k :: 0 <= k < |segments| ==> segments[k].Valid())
    }
  }

  /** Little-endian bytes of v. */
  function Le(v: nat, w: nat): (bs: seq<Byte>)
    ensures |bs| == w
  {
    if w == 0 then [] else [(v % 256) as Byte] + Le(v / 256, w - 1)
  }

  function LeValue(bs: seq<Byte>): nat {
    if bs == [] then 0 else bs[0] as nat + 256 * LeValue(bs[1..])
  }

  function Range(w: nat): nat { if w == 0 then 1 else 256 * Range(w - 1) }

  lemma {:induction false} LeRoundTrip(v: nat, w: nat)
    requires v < Range(w)
    ensures LeValue(Le(v, w)) == v
  {
    if w > 0 {
      LeRoundTrip(v / 256, w - 1);
      assert Le(v, w)[1..] == Le(v / 256, w - 1);
    }
  }

  lemma RangeValues()
    ensures Range(4) == 0x1_0000_0000 && Range(8) == 0x1_0000_0000_0000_0000
  {
    assert Range(2) == 65536;
    assert Range(6) == 0x1_0000_0000_0000;
  }

  /** Store bytes at an offset. */
  function Splice(buf: seq<Byte>, off: nat, bs: seq<Byte>): (r: seq<Byte>)
    requires off + |bs| <= |buf|
    ensures |r| == |buf|
  {
    buf[..off] + bs + buf[off + |bs|..]
  }

  lemma SpliceAt(buf: seq<Byte>, off: nat, bs: seq<Byte>)
    requires off + |bs| <= |buf|
    ensures Splice(buf, off, bs)[off..off + |bs|] == bs
  {
  }

  lemma SpliceElsewhere(buf: seq<Byte>, off: nat, bs: seq<Byte>, a: nat, b: nat)
    requires off + |bs| <= |buf| && a <= b <= |buf| && (b <= off || off + |bs| <= a)
    ensures Splice(buf, off, bs)[a..b] == buf[a..b]
  {
  }

  /** Where the fields of the header lie: ten of the context, three lengths. */
  const OFFSETS: seq<nat> := [0, 8, 16, 24, 32, 40, 44, 48, 52, 56, 64, 68, 72]
  const WIDTHS: seq<nat> := [4, 8, 8, 4, 8, 4, 4, 4, 4, 4, 4, 4, 4]
  const CONTEXT_FIELDS: nat := 10
  const FIELDS: nat := 13

  datatype Header = Header(op: Context, data: u32, key: u32, iv: u32)

  ghost predicate Bounded(vs: seq<nat>) {
    |vs| == FIELDS && forall k :: 0 <= k < FIELDS ==> vs[k] < Range(WIDTHS[k])
  }

  function Values(h: Header): (vs: seq<nat>)
    ensures Bounded(vs)
  {
    RangeValues();
    var c := h.op;
    [c.status, c.ctxPtr, c.outPtr, c.outLen, c.seqNo, c.kind, c.sessId, c.algo, c.cipherOp, c.reserved, h.data, h.key, h.iv]
  }

  function HeaderFrom(vs: seq<nat>): Header
    requires Bounded(vs)
  {
    RangeValues();
    assert forall k :: 0 <= k < FIELDS ==> vs[k] < Range(WIDTHS[k]);
    Header(Context(vs[0], vs[1], vs[2], vs[3], vs[4], vs[5], vs[6], vs[7], vs[8], vs[9]), vs[10], vs[11], vs[12])
  }

  /** Store the first n fields of the header. */
  function PutFields(buf: seq<Byte>, vs: seq<nat>, n: nat): (r: seq<Byte>)
    requires n <= FIELDS == |vs| && CONTEXT_SIZE + LENGTHS_SIZE <= |buf|
    ensures |r| == |buf|
  {
    if n == 0 then buf else Splice(PutFields(buf, vs, n - 1), OFFSETS[n - 1], Le(vs[n - 1], WIDTHS[n - 1]))
  }

  function Field(buf: seq<Byte>, k: nat): nat
    requires k < FIELDS && CONTEXT_SIZE + LENGTHS_SIZE <= |buf|
  {
    LeValue(buf[OFFSETS[k]..OFFSETS[k] + WIDTHS[k]])
  }

  lemma {:induction false} LeValueFits(bs: seq<Byte>)
    ensures LeValue(bs) < Range(|bs|)
  {
    if bs != [] {
      LeValueFits(bs[1..]);
    }
  }

  /** The first n fields of the header. */
  function Fields(buf: seq<Byte>, n: nat): (vs: seq<nat>)
    requires n <= FIELDS && CONTEXT_SIZE + LENGTHS_SIZE <= |buf|
    ensures |vs| == n && forall k :: 0 <= k < n ==> vs[k] == Field(buf, k) && vs[k] < Range(WIDTHS[k])
  {
    if n == 0 then []
    else
      LeValueFits(buf[OFFSETS[n - 1]..OFFSETS[n - 1] + WIDTHS[n - 1]]);
      Fields(buf, n - 1) + [Field(buf, n - 1)]
  }

  function HeaderOf(buf: seq<Byte>): Header
    requires CONTEXT_SIZE + LENGTHS_SIZE <= |buf|
  {
    HeaderFrom(Fields(buf, FIELDS))
  }

  lemma FieldsApart(k: nat, m: nat)
    requires k < FIELDS && m < FIELDS && k != m
    ensures OFFSETS[k] + WIDTHS[k] <= OFFSETS[m] || OFFSETS[m] + WIDTHS[m] <= OFFSETS[k]
  {
  }

  lemma StoredField(buf: seq<Byte>, m: nat, v: nat, k: nat)
    requires k < FIELDS && m < FIELDS && CONTEXT_SIZE + LENGTHS_SIZE <= |buf| && v < Range(WIDTHS[m])
    ensures Field(Splice(buf, OFFSETS[m], Le(v, WIDTHS[m])), k) == if k == m then v else Field(buf, k)
  {
    if k == m {
      SpliceAt(buf, OFFSETS[m], Le(v, WIDTHS[m]));
      LeRoundTrip(v, WIDTHS[m]);
    } else {
      FieldsApart(k, m);
      SpliceElsewhere(buf, OFFSETS[m], Le(v, WIDTHS[m]), OFFSETS[k], OFFSETS[k] + WIDTHS[k]);
    }
  }

  /** Fields do not overlap and are stored in full: what was put is read back, and later stores do not disturb it. */
  lemma {:induction false} PutThenRead(buf: seq<Byte>, vs: seq<nat>, n: nat, k: nat)
    requires k < FIELDS && n <= FIELDS && CONTEXT_SIZE + LENGTHS_SIZE <= |buf| && Bounded(vs)
    ensures Field(PutFields(buf, vs, n), k) == if k < n then vs[k] else Field(buf, k)
  {
    if n > 0 {
      PutThenRead(buf, vs, n - 1, k);
      StoredField(PutFields(buf, vs, n - 1), n - 1, vs[n - 1], k);
    }
  }

  lemma ReadBack(buf: seq<Byte>, vs: seq<nat>, n: nat, m: nat)
    requires n <= m <= FIELDS && CONTEXT_SIZE + LENGTHS_SIZE <= |buf| && Bounded(vs)
    ensures Fields(PutFields(buf, vs, n), m) == vs[..n] + Fields(buf, m)[n..]
  {
    var r := PutFields(buf, vs, n);
    forall k | 0 <= k < m ensures Fields(r, m)[k] == if k < n then vs[k] else Fields(buf, m)[k] {
      PutThenRead(buf, vs, n, k);
    }
  }

  /** Storing a header and reading it back gives the header. */
  lemma HeaderRoundTrip(buf: seq<Byte>, h: Header)
    requires CONTEXT_SIZE + LENGTHS_SIZE <= |buf|
    ensures HeaderOf(PutFields(buf, Values(h), FIELDS)) == h
  {
    ReadBack(buf, Values(h), FIELDS, FIELDS);
    TakeAll(Values(h), Fields(buf, FIELDS));
  }

  lemma TakeAll(vs: seq<nat>, before: seq<nat>)
    requires |vs| == |before| == FIELDS
    ensures vs[..FIELDS] + before[FIELDS..] == vs
  {
  }

  /** Storing a context leaves the lengths. */
  lemma ContextRoundTrip(buf: seq<Byte>, h: Header)
    requires CONTEXT_SIZE + LENGTHS_SIZE <= |buf|
    ensures HeaderOf(PutFields(buf, Values(h), CONTEXT_FIELDS)) == HeaderOf(buf).(op := h.op)
  {
    ReadBack(buf, Values(h), CONTEXT_FIELDS, FIELDS);
    MixedHeader(Fields(buf, FIELDS), h);
  }

  lemma MixedHeader(vs: seq<nat>, h: Header)
    requires Bounded(vs)
    ensures var mixed := Values(h)[..CONTEXT_FIELDS] + vs[CONTEXT_FIELDS..];
            Bounded(mixed) && HeaderFrom(mixed) == HeaderFrom(vs).(op := h.op)
  {
    var mixed := Values(h)[..CONTEXT_FIELDS] + vs[CONTEXT_FIELDS..];
    forall k | 0 <= k < FIELDS ensures mixed[k] == if k < CONTEXT_FIELDS then Values(h)[k] else vs[k] {
    }
  }

  lemma FieldInHeader(k: nat)
    requires k < FIELDS
    ensures OFFSETS[k] + WIDTHS[k] <= CONTEXT_SIZE + LENGTHS_SIZE
  {
  }

  /** The header lies below the headroom. */
  lemma {:induction false} HeaderBelow(buf: seq<Byte>, vs: seq<nat>, n: nat, a: nat, b: nat)
    requires n <= FIELDS == |vs| && CONTEXT_SIZE + LENGTHS_SIZE <= a <= b <= |buf|
    ensures PutFields(buf, vs, n)[a..b] == buf[a..b]
  {
    if n > 0 {
      HeaderBelow(buf, vs, n - 1, a, b);
      FieldInHeader(n - 1);
      SpliceElsewhere(PutFields(buf, vs, n - 1), OFFSETS[n - 1], Le(vs[n - 1], WIDTHS[n - 1]), a, b);
    }
  }

  /** The lengths of the first n segments. */
  function Sum(segs: seq<Buff>, n: nat): nat
    requires n <= |segs|
  {
    if n == 0 then 0 else Sum(segs, n - 1) + segs[n - 1].Length()
  }

  lemma {:induction false} SumMonotone(segs: seq<Buff>, n: nat, m: nat)
    requires n <= m <= |segs|
    ensures Sum(segs, n) <= Sum(segs, m)
  {
    if n < m {
      SumMonotone(segs, n, m - 1);
    }
  }

  /** The segments one after the other. */
  function Gather(segs: seq<Buff>, n: nat): (bs: seq<Byte>)
    requires n <= |segs| && AllThere(segs)
    ensures |bs| == Sum(segs, n)
  {
    if n == 0 then [] else Gather(segs, n - 1) + segs[n - 1].bytes
  }

  ghost predicate AllThere(segs: seq<Buff>) { forall k :: 0 <= k < |segs| ==> segs[k].Buff? }

  /** A null pointer is skipped: the bytes in its place stay as they were. */
  function Put(buf: seq<Byte>, off: nat, b: Buff): (r: seq<Byte>)
    requires off + b.Length() <= |buf|
    ensures |r| == |buf|
  {
    if b.Buff? then Splice(buf, off, b.bytes) else buf
  }

  function PutSegments(buf: seq<Byte>, segs: seq<Buff>, n: nat): (r: seq<Byte>)
    requires n <= |segs| && DATA + Sum(segs, n) <= |buf|
    ensures |r| == |buf|
  {
    if n == 0 then buf else Put(PutSegments(buf, segs, n - 1), DATA + Sum(segs, n - 1), segs[n - 1])
  }

  /** The encoder refuses a job when the 32-bit sum of its segment lengths exceeds the data area. */
  predicate Oversize(j: Operation) { Sum(j.segments, |j.segments|) % TWO32 > BUFF_SIZE }

  /** The buffer has room for what the encoder stores: for a job that fits, the key and the vector, too. */
  ghost predicate RoomFor(buf: seq<Byte>, j: Operation) {
    KEY <= |buf| && (!Oversize(j) ==> KEY + j.key.Length() + j.iv.Length() <= |buf|)
  }

  /** What the encoder demands of its caller: room, and a sum that does not wrap. */
  ghost predicate Encodable(buf: seq<Byte>, j: Operation) {
    j.Valid() && Sum(j.segments, |j.segments|) < TWO32 && RoomFor(buf, j)
  }

  function StoreHeader(buf: seq<Byte>, h: Header): (r: seq<Byte>)
    requires CONTEXT_SIZE + LENGTHS_SIZE <= |buf|
    ensures |r| == |buf|
  {
    PutFields(buf, Values(h), FIELDS)
  }

  /** ctx_to_buffer. */
  function StoreContext(buf: seq<Byte>, op: Context): (r: seq<Byte>)
    requires CONTEXT_SIZE + LENGTHS_SIZE <= |buf|
    ensures |r| == |buf|
  {
    PutFields(buf, Values(Header(op, 0, 0, 0)), CONTEXT_FIELDS)
  }

  /** The header the encoder writes. */
  ghost function EncodedHeader(j: Operation): Header
    requires j.Valid() && Sum(j.segments, |j.segments|) < TWO32
  {
    if Oversize(j) then Header(j.op.(status := STATUS_FAILED), 0, 0, 0)
    else Header(j.op, Sum(j.segments, |j.segments|), j.key.Length(), j.iv.Length())
  }

  /** crypto_job_to_buffer. */
  ghost function Encode(buf: seq<Byte>, j: Operation): (r: seq<Byte>)
    requires Encodable(buf, j)
    ensures |r| == |buf|
  {
    var r := StoreHeader(buf, EncodedHeader(j));
    if Oversize(j) then r
    else Put(Put(PutSegments(r, j.segments, |j.segments|), KEY, j.key), KEY + j.key.Length(), j.iv)
  }

  /** The lengths in the header stay inside the areas. */
  ghost predicate WellSized(buf: seq<Byte>) {
    && KEY <= |buf|
    && HeaderOf(buf).data <= BUFF_SIZE && KEY + HeaderOf(buf).key + HeaderOf(buf).iv <= |buf|
  }

  function DataOf(buf: seq<Byte>): seq<Byte>
    requires WellSized(buf)
  {
    buf[DATA..DATA + HeaderOf(buf).data]
  }

  function KeyOf(buf: seq<Byte>): seq<Byte>
    requires WellSized(buf)
  {
    buf[KEY..KEY + HeaderOf(buf).key]
  }

  function IvOf(buf: seq<Byte>): seq<Byte>
    requires WellSized(buf)
  {
    buf[KEY + HeaderOf(buf).key..KEY + HeaderOf(buf).key + HeaderOf(buf).iv]
  }

  /** A job buffer carries this header and these bytes. */
  ghost predicate Carries(buf: seq<Byte>, op: Context, data: seq<Byte>, key: seq<Byte>, iv: seq<Byte>) {
    && WellSized(buf) && HeaderOf(buf).op == op
    && DataOf(buf) == data && KeyOf(buf) == key && IvOf(buf) == iv
  }

  /** crypto_job_from_buffer copies a ciphered result into the caller's output buffer, or fails the job. */
  predicate Delivers(h: Header) { h.op.kind == 0 && h.op.status == STATUS_SUCC }

  predicate Room(h: Header) { h.op.outPtr != 0 && h.data <= h.op.outLen }

  function DecodedContext(h: Header): Context {
    if !Delivers(h) then h.op
    else if Room(h) then h.op.(outLen := h.data)
    else h.op.(status := STATUS_FAILED)
  }

  function DecodedOut(buf: seq<Byte>, out: seq<Byte>): seq<Byte>
    requires WellSized(buf) && |out| >= HeaderOf(buf).op.outLen
  {
    if Delivers(HeaderOf(buf)) && Room(HeaderOf(buf)) then Splice(out, 0, DataOf(buf)) else out
  }

  /** copy_buffer_to_buffer. */
  function Copy(inb: seq<Byte>, outb: seq<Byte>): (r: seq<Byte>)
    requires WellSized(inb) && KEY + HeaderOf(inb).key + HeaderOf(inb).iv <= |outb|
    ensures |r| == |outb|
  {
    var r := StoreHeader(outb, HeaderOf(inb));
    Splice(Splice(Splice(r, DATA, DataOf(inb)), KEY, KeyOf(inb)), KEY + HeaderOf(inb).key, IvOf(inb))
  }
}
