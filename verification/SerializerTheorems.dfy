/**
 What a job buffer carries, through encoding, copying, work in place and decoding.
 */
module SerializerTheorems {
  import opened Basics
  import opened Serializer

  const HEADER: nat := 76 // CONTEXT_SIZE + LENGTHS_SIZE

  lemma PrefixSlice(buf: seq<Byte>, n: nat, a: nat, b: nat)
    requires a <= b <= n <= |buf|
    ensures buf[..n][a..b] == buf[a..b]
  {
  }

  /** The header is a function of the first bytes alone. */
  lemma {:induction false} SameFields(buf: seq<Byte>, buf': seq<Byte>, n: nat)
    requires HEADER <= |buf| && HEADER <= |buf'| && buf[..HEADER] == buf'[..HEADER] && n <= FIELDS
    ensures Fields(buf, n) == Fields(buf', n)
  {
    if n > 0 {
      SameFields(buf, buf', n - 1);
      var a, b := OFFSETS[n - 1], OFFSETS[n - 1] + WIDTHS[n - 1];
      PrefixSlice(buf, HEADER, a, b);
      PrefixSlice(buf', HEADER, a, b);
    }
  }

  lemma SameHeader(buf: seq<Byte>, buf': seq<Byte>)
    requires HEADER <= |buf| && HEADER <= |buf'| && buf[0..HEADER] == buf'[0..HEADER]
    ensures HeaderOf(buf) == HeaderOf(buf')
  {
    assert buf[..HEADER] == buf[0..HEADER] && buf'[..HEADER] == buf'[0..HEADER];
    SameFields(buf, buf', FIELDS);
  }

  lemma BehindHeader(buf: seq<Byte>, off: nat, bs: seq<Byte>)
    requires HEADER <= off && off + |bs| <= |buf|
    ensures HeaderOf(Splice(buf, off, bs)) == HeaderOf(buf)
  {
    SpliceElsewhere(buf, off, bs, 0, HEADER);
    SameHeader(buf, Splice(buf, off, bs));
  }

  lemma PutElsewhere(buf: seq<Byte>, off: nat, x: Buff, a: nat, b: nat)
    requires off + x.Length() <= |buf| && a <= b <= |buf| && (b <= off || off + x.Length() <= a)
    ensures Put(buf, off, x)[a..b] == buf[a..b]
  {
    if x.Buff? {
      SpliceElsewhere(buf, off, x.bytes, a, b);
    }
  }

  /** Writing the segments touches the data area only, and of it only as much as they need. */
  lemma {:induction false} SegmentsElsewhere(buf: seq<Byte>, segs: seq<Buff>, n: nat, a: nat, b: nat)
    requires n <= |segs| && DATA + Sum(segs, n) <= |buf|
    requires a <= b <= |buf| && (b <= DATA || DATA + Sum(segs, n) <= a)
    ensures PutSegments(buf, segs, n)[a..b] == buf[a..b]
  {
    if n > 0 {
      SegmentsElsewhere(buf, segs, n - 1, a, b);
      PutElsewhere(PutSegments(buf, segs, n - 1), DATA + Sum(segs, n - 1), segs[n - 1], a, b);
    }
  }

  /** The segments end up one after the other at the start of the data area. */
  lemma {:induction false} SegmentsGathered(buf: seq<Byte>, segs: seq<Buff>, n: nat)
    requires n <= |segs| && DATA + Sum(segs, n) <= |buf| && AllThere(segs)
    ensures PutSegments(buf, segs, n)[DATA..DATA + Sum(segs, n)] == Gather(segs, n)
  {
    if n > 0 {
      SegmentsGathered(buf, segs, n - 1);
      var before, mid, end := PutSegments(buf, segs, n - 1), DATA + Sum(segs, n - 1), DATA + Sum(segs, n);
      var r := PutSegments(buf, segs, n);
      SpliceAt(before, mid, segs[n - 1].bytes);
      SpliceElsewhere(before, mid, segs[n - 1].bytes, DATA, mid);
      assert r[DATA..end] == r[DATA..mid] + r[mid..end];
    }
  }

  /** A stored header survives everything written behind it. */
  lemma EncodeHeader(buf: seq<Byte>, j: Operation)
    requires Encodable(buf, j)
    ensures HeaderOf(Encode(buf, j)) == EncodedHeader(j)
  {
    var h := EncodedHeader(j);
    var r := StoreHeader(buf, h);
    HeaderRoundTrip(buf, h);
    if !Oversize(j) {
      var n := |j.segments|;
      var s := PutSegments(r, j.segments, n);
      var t := Put(s, KEY, j.key);
      SegmentsElsewhere(r, j.segments, n, 0, HEADER);
      PutElsewhere(s, KEY, j.key, 0, HEADER);
      PutElsewhere(t, KEY + j.key.Length(), j.iv, 0, HEADER);
      SameHeader(r, Encode(buf, j));
    }
  }

  /** All pointers of the job are there and it fits. */
  ghost predicate Sound(j: Operation) {
    AllThere(j.segments) && j.key.Buff? && j.iv.Buff? && !Oversize(j)
  }

  /** Encoding a job that fits: the buffer carries its context, all its segments joined, its key and its vector. */
  lemma EncodeCarries(buf: seq<Byte>, j: Operation)
    requires Encodable(buf, j) && Sound(j)
    ensures Carries(Encode(buf, j), j.op, Gather(j.segments, |j.segments|), j.key.bytes, j.iv.bytes)
  {
    EncodeHeader(buf, j);
    var n := |j.segments|;
    var r := StoreHeader(buf, EncodedHeader(j));
    var s := PutSegments(r, j.segments, n);
    var t := Put(s, KEY, j.key);
    var at, end := KEY + j.key.Length(), DATA + Sum(j.segments, n);
    SegmentsGathered(r, j.segments, n);
    PutElsewhere(s, KEY, j.key, DATA, end);
    PutElsewhere(t, at, j.iv, DATA, end);
    SpliceAt(s, KEY, j.key.bytes);
    PutElsewhere(t, at, j.iv, KEY, at);
    SpliceAt(t, at, j.iv.bytes);
  }

  /** Encoding a job that does not fit: FAILED, and nothing to read. */
  lemma EncodeOversize(buf: seq<Byte>, j: Operation)
    requires Encodable(buf, j) && Oversize(j)
    ensures Carries(Encode(buf, j), j.op.(status := STATUS_FAILED), [], [], [])
  {
    EncodeHeader(buf, j);
  }

  /** Three areas stored one behind the other, behind the header, are all there afterwards. */
  lemma ThreeStores(r: seq<Byte>, data: seq<Byte>, key: seq<Byte>, iv: seq<Byte>)
    requires |data| <= BUFF_SIZE && KEY + |key| + |iv| <= |r|
    ensures var u := Splice(Splice(Splice(r, DATA, data), KEY, key), KEY + |key|, iv);
            && HeaderOf(u) == HeaderOf(r) && u[DATA..DATA + |data|] == data && u[KEY..KEY + |key|] == key
            && u[KEY + |key|..KEY + |key| + |iv|] == iv
  {
    var s := Splice(r, DATA, data);
    var t := Splice(s, KEY, key);
    var at, end := KEY + |key|, DATA + |data|;
    BehindHeader(r, DATA, data);
    BehindHeader(s, KEY, key);
    BehindHeader(t, at, iv);
    SpliceAt(r, DATA, data);
    SpliceElsewhere(s, KEY, key, DATA, end);
    SpliceElsewhere(t, at, iv, DATA, end);
    SpliceAt(s, KEY, key);
    SpliceElsewhere(t, at, iv, KEY, at);
    SpliceAt(t, at, iv);
  }

  /** Copying keeps what a buffer carries, whatever was in the target before. */
  lemma CopyCarries(inb: seq<Byte>, outb: seq<Byte>)
    requires WellSized(inb) && KEY + HeaderOf(inb).key + HeaderOf(inb).iv <= |outb|
    ensures Carries(Copy(inb, outb), HeaderOf(inb).op, DataOf(inb), KeyOf(inb), IvOf(inb))
  {
    HeaderRoundTrip(outb, HeaderOf(inb));
    ThreeStores(StoreHeader(outb, HeaderOf(inb)), DataOf(inb), KeyOf(inb), IvOf(inb));
  }

  /** The server's buffer after the device has worked on the data in place and the context has been written back. */
  function Replied(buf: seq<Byte>, op: Context, data: seq<Byte>): (r: seq<Byte>)
    requires WellSized(buf) && |data| == HeaderOf(buf).data
    ensures |r| == |buf|
  {
    StoreContext(Splice(buf, DATA, data), op)
  }

  /** Writing back the context disturbs neither the data nor the key nor the vector. */
  lemma ReplyCarries(buf: seq<Byte>, op: Context, data: seq<Byte>)
    requires WellSized(buf) && |data| == HeaderOf(buf).data
    ensures Carries(Replied(buf, op, data), op, data, KeyOf(buf), IvOf(buf))
  {
    var h := HeaderOf(buf);
    var s := Splice(buf, DATA, data);
    var r := Replied(buf, op, data);
    var vs := Values(Header(op, 0, 0, 0));
    BehindHeader(buf, DATA, data);
    ContextRoundTrip(s, Header(op, 0, 0, 0));
    var at, end := KEY + h.key, KEY + h.key + h.iv;
    HeaderBelow(s, vs, CONTEXT_FIELDS, DATA, DATA + h.data);
    HeaderBelow(s, vs, CONTEXT_FIELDS, KEY, at);
    HeaderBelow(s, vs, CONTEXT_FIELDS, at, end);
    SpliceAt(buf, DATA, data);
    SpliceElsewhere(buf, DATA, data, KEY, at);
    SpliceElsewhere(buf, DATA, data, at, end);
  }

  /** Delivery: the output buffer starts with the data exactly when a ciphered result has room; otherwise it is untouched and the job is not a success. */
  lemma DecodeDelivers(buf: seq<Byte>, out: seq<Byte>)
    requires WellSized(buf) && |out| >= HeaderOf(buf).op.outLen
    ensures var h := HeaderOf(buf);
            && |DecodedOut(buf, out)| == |out|
            && (Delivers(h) && Room(h) ==> DecodedOut(buf, out)[..h.data] == DataOf(buf) && DecodedOut(buf, out)[h.data..] == out[h.data..])
            && (!(Delivers(h) && Room(h)) ==> DecodedOut(buf, out) == out)
            && (h.op.kind == 0 ==> (DecodedContext(h).status == STATUS_SUCC <==> Delivers(h) && Room(h)))
  {
  }
}
