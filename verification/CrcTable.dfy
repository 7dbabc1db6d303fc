/** The lookup table and the byte-at-a-time remainder. */
module CrcTable {
  import opened Bits
  import opened CrcSpec
  import opened CrcCode

  /** What the table has to hold for a byte: its CRC from a zero register, placed as the loop wants it. */
  function TableEntry(p: Parameters, byte: Byte): (e: Word)
    requires p.Valid()
    ensures |e| == p.n
  {
    if p.reflectInput then Resize(Reversed(Feed(p.Poly(), Zeros(p.w), byte)), p.n)
    else if p.w >= 8 then Resize(Feed(p.Poly(), Zeros(p.w), Reversed(byte)), p.n)
    else Resize(Zeros(8 - p.w) + Feed(p.Poly(), Zeros(p.w), Reversed(byte)), p.n)
  }

  ghost predicate IsTable(p: Parameters, table: seq<Word>)
    requires p.Valid()
  {
    |table| == 256 && forall x :: 0 <= x < 256 ==> table[x] == TableEntry(p, BitsOf(x, 8))
  }

  lemma Lookup(p: Parameters, table: seq<Word>, byte: Byte)
    requires p.Valid() && IsTable(p, table)
    ensures Value(byte) < 256 && table[Value(byte)] == TableEntry(p, byte)
  {
    ValueBound(byte, 256);
    BitsOfValue(byte);
  }

  /** From a zero register, the wide reflected register only ever uses its low w bits. */
  lemma ZeroStart(p: Parameters, bits: Word)
    requires p.Valid()
    ensures Feed(p.WidePoly(), Zeros(p.n), bits) == Zeros(p.n - p.w) + Feed(p.Poly(), Zeros(p.w), bits)
  {
    assert Zeros(p.n) == Zeros(p.n - p.w) + Zeros(p.w);
    Widen(p.Poly(), Zeros(p.w), p.n - p.w, bits);
  }

  lemma MirrorOfPadded(a: Word, n: nat)
    requires |a| <= n
    ensures Reversed(Zeros(n - |a|) + a) == Resize(Reversed(a), n)
    ensures KeepLow(Resize(Reversed(a), n), |a|) == Resize(Reversed(a), n)
  {
  }

  lemma EntryReflected(p: Parameters, byte: Byte, crc: Word)
    requires p.Valid() && p.reflectInput && Tracks(p, Zeros(p.n), byte, crc)
    ensures TableEntry(p, byte) == KeepLow(crc, p.w)
  {
    assert Reversed(Zeros(p.n)) == Zeros(p.n);
    ZeroStart(p, byte);
    MirrorOfPadded(Feed(p.Poly(), Zeros(p.w), byte), p.n);
  }

  lemma KeepLowIsResize(crc: Word, f: Word)
    requires |f| <= |crc| && crc[..|f|] == f
    ensures KeepLow(crc, |f|) == Resize(f, |crc|)
  {
    var x, y := KeepLow(crc, |f|), Resize(f, |crc|);
    forall i | 0 <= i < |crc|
      ensures x[i] == y[i]
    {
      if i < |f| {
        assert crc[..|f|][i] == f[i];
      }
    }
  }

  lemma ShiftResized(f: Word, n: nat, pad: nat)
    requires |f| + pad <= n
    ensures Shl(Resize(f, n), pad) == Resize(Zeros(pad) + f, n)
  {
  }

  /** Masking the remainder of one byte, and shifting it back up for sub-byte widths, loses nothing. */
  lemma EntryFromRemainder(p: Parameters, byte: Byte, crc: Word)
    requires p.Valid() && Tracks(p, Zeros(p.n), Stream(p.reflectInput, [byte]), crc)
    ensures var masked := KeepLow(crc, p.w);
            TableEntry(p, byte) == if !p.reflectInput && p.w < 8 then Shl(masked, 8 - p.w) else masked
  {
    StreamOne(p.reflectInput, byte);
    if p.reflectInput {
      EntryReflected(p, byte, crc);
    } else {
      EntryPlain(p, byte, crc);
    }
  }

  lemma EntryPlain(p: Parameters, byte: Byte, crc: Word)
    requires p.Valid() && !p.reflectInput && Tracks(p, Zeros(p.n), Reversed(byte), crc)
    ensures TableEntry(p, byte) == if p.w < 8 then Shl(KeepLow(crc, p.w), 8 - p.w) else KeepLow(crc, p.w)
  {
    var f := Feed(p.Poly(), Zeros(p.w), Reversed(byte));
    assert Zeros(p.n)[..p.w] == Zeros(p.w);
    KeepLowIsResize(crc, f);
    if p.w < 8 {
      ShiftResized(f, p.n, 8 - p.w);
    }
  }

  /** Table::InitTable; the loop variable is an unsigned char and ends the loop by wrapping to zero. */
  method InitTable(p: Parameters) returns (table: array<Word>)
    requires p.Valid()
    ensures IsTable(p, table[..])
  {
    table := new Word[256](i => []);
    var byte := 0;
    while true
      invariant 0 <= byte < 256
      invariant forall x :: 0 <= x < byte ==> table[x] == TableEntry(p, BitsOf(x, 8))
      decreases 256 - byte
    {
      table[byte] := MakeEntry(p, BitsOf(byte, 8));
      if byte == 255 {
        break;
      }
      byte := byte + 1;
    }
  }

  /** The body of InitTable's loop. */
  method MakeEntry(p: Parameters, byte: Byte) returns (crc: Word)
    requires p.Valid()
    ensures crc == TableEntry(p, byte)
  {
    crc := CalculateRemainder([byte], p, Zeros(p.n));
    EntryFromRemainder(p, byte, crc);
    crc := KeepLow(crc, p.w);
    if !p.reflectInput && p.w < CHAR_BIT {
      crc := Shl(crc, CHAR_BIT - p.w);
    }
  }

  // ----- one byte through the table

  lemma LookupReflected(p: Parameters, r: Word, byte: Byte)
    requires p.Valid() && p.reflectInput && |r| == p.n
    ensures Tracks(p, r, byte, Xor(Shr(r, 8), TableEntry(p, Xor(Resize(r, 8), byte))))
  {
    var index := Xor(Resize(r, 8), byte);
    var f := Feed(p.Poly(), Zeros(p.w), index);
    var wide := Feed(p.WidePoly(), Zeros(p.n), index);
    assert Reversed(Reversed(r)[p.n - 8..]) == Resize(r, 8);
    TableStep(p.WidePoly(), Reversed(r), byte);
    ZeroStart(p, index);
    MirrorOfPadded(f, p.n);
    assert Reversed(wide) == TableEntry(p, index);
    MirrorXor(r, wide);
  }

  lemma MirrorXor(r: Word, e: Word)
    requires 8 <= |r| == |e|
    ensures Reversed(Xor(Shl(Reversed(r), 8), e)) == Xor(Shr(r, 8), Reversed(e))
  {
  }

  lemma LookupWide(p: Parameters, r: Word, byte: Byte)
    requires p.Valid() && !p.reflectInput && p.w >= 8 && |r| == p.n
    ensures Tracks(p, r, Reversed(byte), Xor(Shl(r, 8), TableEntry(p, Xor(Resize(Shr(r, p.w - 8), 8), byte))))
  {
    var index := Xor(Resize(Shr(r, p.w - 8), 8), byte);
    var f := Feed(p.Poly(), Zeros(p.w), Reversed(index));
    WideIndex(r, byte, p.w);
    TableStep(p.Poly(), r[..p.w], Reversed(byte));
    assert Resize(f, p.n)[..p.w] == f;
    LowXor(r, Resize(f, p.n), p.w);
  }

  lemma WideIndex(r: Word, byte: Byte, w: nat)
    requires 8 <= w <= |r|
    ensures Xor(Reversed(r[..w][w - 8..]), Reversed(byte)) == Reversed(Xor(Resize(Shr(r, w - 8), 8), byte))
  {
    assert Resize(Shr(r, w - 8), 8) == r[..w][w - 8..];
  }

  lemma LowXor(r: Word, e: Word, w: nat)
    requires 8 <= w <= |r| == |e|
    ensures Xor(Shl(r, 8), e)[..w] == Xor(Shl(r[..w], 8), e[..w])
  {
  }

  /** For a register narrower than a byte, the entry alone is the new register. */
  lemma SmallTableStep(poly: Word, f: Word, byte: Byte)
    requires 0 < |poly| == |f| < 8
    ensures var index := Xor(Zeros(8 - |f|) + f, byte);
            Feed(poly, f, Reversed(byte)) == Feed(poly, Zeros(|f|), Reversed(index))
  {
    var pad, w := 8 - |f|, |f|;
    var r := Zeros(pad) + f;
    var index := Xor(r, byte);
    calc {
      Zeros(pad) + Feed(poly, f, Reversed(byte));
      { Widen(poly, f, pad, Reversed(byte)); }
      Feed(Zeros(pad) + poly, r, Reversed(byte));
      { TableStep(Zeros(pad) + poly, r, Reversed(byte)); }
      Xor(Shl(r, 8), Feed(Zeros(pad) + poly, Zeros(8), Xor(Reversed(r[0..]), Reversed(byte))));
      { SmallIndex(r, byte); ShiftedOut(r, Feed(Zeros(pad) + poly, Zeros(8), Reversed(index))); }
      Feed(Zeros(pad) + poly, Zeros(8), Reversed(index));
      { assert Zeros(8) == Zeros(pad) + Zeros(w); Widen(poly, Zeros(w), pad, Reversed(index)); }
      Zeros(pad) + Feed(poly, Zeros(w), Reversed(index));
    }
    PadCancel(pad, Feed(poly, f, Reversed(byte)), Feed(poly, Zeros(w), Reversed(index)));
  }

  lemma SmallIndex(r: Word, byte: Byte)
    requires |r| == 8
    ensures Xor(Reversed(r[0..]), Reversed(byte)) == Reversed(Xor(r, byte))
  {
    assert r[0..] == r;
  }

  lemma ShiftedOut(r: Word, e: Word)
    requires |r| == |e| == 8
    ensures Xor(Shl(r, 8), e) == e
  {
  }

  lemma PadCancel(pad: nat, a: Word, b: Word)
    requires Zeros(pad) + a == Zeros(pad) + b
    ensures a == b
  {
    assert a == (Zeros(pad) + a)[pad..];
    assert b == (Zeros(pad) + b)[pad..];
  }

  lemma LookupSmall(p: Parameters, r0: Word, bits: Word, r: Word, byte: Byte)
    requires p.Valid() && !p.reflectInput && p.w < 8 && |r0| == p.n && SmallTracks(p, r0, bits, r)
    ensures SmallTracks(p, r0, bits + Reversed(byte), TableEntry(p, Xor(Resize(r, 8), byte)))
  {
    var f := Feed(p.Poly(), r0[..p.w], bits);
    assert Resize(r, 8) == Zeros(8 - p.w) + f;
    SmallTableStep(p.Poly(), f, byte);
    FeedAppend(p.Poly(), r0[..p.w], bits, Reversed(byte));
    ResizedPrefix(Zeros(8 - p.w) + Feed(p.Poly(), f, Reversed(byte)), p.n);
  }

  lemma ResizedPrefix(a: Word, n: nat)
    requires |a| <= n
    ensures Resize(a, n)[..|a|] == a
  {
  }

  // ----- CalculateRemainder by table

  method CalculateRemainderTable(data: seq<Byte>, p: Parameters, table: array<Word>, remainder: Word) returns (r: Word)
    requires p.Valid() && IsTable(p, table[..]) && |remainder| == p.n
    ensures Tracks(p, remainder, Stream(p.reflectInput, data), r)
  {
    if p.reflectInput {
      r := TableReflected(data, p, table, remainder);
    } else if p.w >= CHAR_BIT {
      r := TableWide(data, p, table, remainder);
    } else {
      r := TableSmall(data, p, table, remainder);
    }
  }

  method TableReflected(data: seq<Byte>, p: Parameters, table: array<Word>, remainder: Word) returns (r: Word)
    requires p.Valid() && IsTable(p, table[..]) && |remainder| == p.n && p.reflectInput
    ensures Tracks(p, remainder, Stream(true, data), r)
  {
    r := remainder;
    TracksStart(p, r);
    assert data[..0] == [];
    for i := 0 to |data|
      invariant Tracks(p, remainder, Stream(true, data[..i]), r)
    {
      var r' := ByteReflected(data[i], p, table, r);
      TracksByte(p, remainder, data, i, r, r');
      r := r';
    }
    assert data[..|data|] == data;
  }

  /** The body of the reflected loop. */
  method ByteReflected(byte: Byte, p: Parameters, table: array<Word>, r: Word) returns (r': Word)
    requires p.Valid() && IsTable(p, table[..]) && |r| == p.n && p.reflectInput
    ensures Tracks(p, r, byte, r')
  {
    var index: Byte := Xor(Resize(r, 8), byte);
    Lookup(p, table[..], index);
    r' := Xor(Shr(r, CHAR_BIT), table[Value(index)]);
    LookupReflected(p, r, byte);
  }

  method TableWide(data: seq<Byte>, p: Parameters, table: array<Word>, remainder: Word) returns (r: Word)
    requires p.Valid() && IsTable(p, table[..]) && |remainder| == p.n && !p.reflectInput && p.w >= CHAR_BIT
    ensures Tracks(p, remainder, Stream(false, data), r)
  {
    r := remainder;
    TracksStart(p, r);
    assert data[..0] == [];
    for i := 0 to |data|
      invariant Tracks(p, remainder, Stream(false, data[..i]), r)
    {
      var r' := ByteWide(data[i], p, table, r);
      TracksByte(p, remainder, data, i, r, r');
      r := r';
    }
    assert data[..|data|] == data;
  }

  /** The body of the loop for widths of at least a byte. */
  method ByteWide(byte: Byte, p: Parameters, table: array<Word>, r: Word) returns (r': Word)
    requires p.Valid() && IsTable(p, table[..]) && |r| == p.n && !p.reflectInput && p.w >= CHAR_BIT
    ensures Tracks(p, r, Reversed(byte), r')
  {
    var index: Byte := Xor(Resize(Shr(r, p.w - CHAR_BIT), 8), byte);
    Lookup(p, table[..], index);
    r' := Xor(Shl(r, CHAR_BIT), table[Value(index)]);
    LookupWide(p, r, byte);
  }

  method TableSmall(data: seq<Byte>, p: Parameters, table: array<Word>, remainder: Word) returns (r: Word)
    requires p.Valid() && IsTable(p, table[..]) && |remainder| == p.n && !p.reflectInput && p.w < CHAR_BIT
    ensures Tracks(p, remainder, Stream(false, data), r)
  {
    r := Shl(remainder, CHAR_BIT - p.w);
    SmallEnter(p, remainder);
    assert data[..0] == [];
    for i := 0 to |data|
      invariant SmallTracks(p, remainder, Stream(false, data[..i]), r)
    {
      var index: Byte := Xor(Resize(r, 8), data[i]);
      Lookup(p, table[..], index);
      LookupSmall(p, remainder, Stream(false, data[..i]), r, data[i]);
      r := table[Value(index)];
      StreamNext(false, data, i);
    }
    assert data[..|data|] == data;
    SmallLeave(p, remainder, Stream(false, data), r);
    r := Shr(r, CHAR_BIT - p.w);
  }
}
