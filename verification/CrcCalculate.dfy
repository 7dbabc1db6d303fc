/** Whole CRCs: finalisation, the Calculate overloads, and the laws that tie them together. */
module CrcCalculate {
  import opened Bits
  import opened CrcSpec
  import opened CrcCode
  import opened CrcTable

  function Finalize(p: Parameters, remainder: Word, reflect: bool): (crc: Word)
    requires p.Valid() && |remainder| == p.n
    ensures |crc| == p.n && Fits(crc, p.w)
  {
    KeepLow(Xor(if reflect then ReflectLow(remainder, p.w) else remainder, p.finalXOR), p.w)
  }

  function UndoFinalize(p: Parameters, crc: Word, reflect: bool): (remainder: Word)
    requires p.Valid() && |crc| == p.n
    ensures |remainder| == p.n
  {
    var x := Xor(KeepLow(crc, p.w), p.finalXOR);
    if reflect then ReflectLow(x, p.w) else x
  }

  lemma UndoAt(p: Parameters, remainder: Word, reflect: bool, i: nat)
    requires p.Valid() && |remainder| == p.n && i < p.w
    ensures UndoFinalize(p, Finalize(p, remainder, reflect), reflect)[i] == remainder[i]
  {
    if reflect {
      UndoReflectedAt(p, remainder, i, p.w - 1 - i);
    }
  }

  lemma UndoReflectedAt(p: Parameters, remainder: Word, i: nat, j: nat)
    requires p.Valid() && |remainder| == p.n && i < p.w && i + j == p.w - 1
    ensures UndoFinalize(p, Finalize(p, remainder, true), true)[i] == remainder[i]
  {
    var f := Finalize(p, remainder, true);
    assert ReflectLow(remainder, p.w)[j] == remainder[i];
    assert f[j] == (remainder[i] != p.finalXOR[j]);
    assert UndoFinalize(p, f, true)[i] == Xor(KeepLow(f, p.w), p.finalXOR)[j];
  }

  /** Undoing a finalisation keeps the low w bits. */
  lemma UndoKeepsLow(p: Parameters, remainder: Word, reflect: bool)
    requires p.Valid() && |remainder| == p.n
    ensures UndoFinalize(p, Finalize(p, remainder, reflect), reflect)[..p.w] == remainder[..p.w]
  {
    forall i | 0 <= i < p.w
      ensures UndoFinalize(p, Finalize(p, remainder, reflect), reflect)[i] == remainder[i]
    {
      UndoAt(p, remainder, reflect, i);
    }
  }

  /** UndoFinalize returns the very remainder that Finalize was given just when its unused bits agree. */
  lemma UndoFinalizeIff(p: Parameters, remainder: Word, reflect: bool)
    requires p.Valid() && |remainder| == p.n
    ensures UndoFinalize(p, Finalize(p, remainder, reflect), reflect) == remainder <==>
            forall i :: p.w <= i < p.n ==> remainder[i] == (!reflect && p.finalXOR[i])
  {
    var u := UndoFinalize(p, Finalize(p, remainder, reflect), reflect);
    UndoKeepsLow(p, remainder, reflect);
    forall i | 0 <= i < p.w
      ensures u[i] == remainder[i]
    {
      assert u[..p.w][i] == remainder[..p.w][i];
    }
    assert forall i :: p.w <= i < p.n ==> u[i] == (!reflect && p.finalXOR[i]);
  }

  /** Eight CRC bits in sixteen, and a remainder with the bit above them set: the bit is lost. */
  lemma UndoLosesHighBit(reflect: bool)
    ensures var p := Parameters(16, 8, Zeros(16), Zeros(16), Zeros(16), false, false);
            var remainder := Zeros(8) + [true] + Zeros(7);
            p.Valid() && UndoFinalize(p, Finalize(p, remainder, reflect), reflect) != remainder
  {
    var p := Parameters(16, 8, Zeros(16), Zeros(16), Zeros(16), false, false);
    var remainder := Zeros(8) + [true] + Zeros(7);
    UndoFinalizeIff(p, remainder, reflect);
    assert remainder[8];
  }

  /** A CRC depends only on the low w bits of the remainder. */
  lemma FinalizeLow(p: Parameters, a: Word, b: Word, reflect: bool)
    requires p.Valid() && |a| == |b| == p.n && a[..p.w] == b[..p.w]
    ensures Finalize(p, a, reflect) == Finalize(p, b, reflect)
  {
    forall i | 0 <= i < p.w
      ensures a[i] == b[i]
    {
      assert a[..p.w][i] == b[..p.w][i];
    }
  }

  // ----- what every way of calculating returns

  /** The remainder after a bit stream, without left-over bits. */
  function RemainderOf(p: Parameters, r0: Word, bits: Word): (r: Word)
    requires p.Valid() && |r0| == p.n
    ensures |r| == p.n
  {
    if p.reflectInput then Reversed(Feed(p.WidePoly(), Reversed(r0), bits))
    else Resize(Feed(p.Poly(), r0[..p.w], bits), p.n)
  }

  function Toggle(p: Parameters): bool { p.reflectInput != p.reflectOutput }

  /** The CRC of a bit stream that continues from remainder r0. */
  function CrcFrom(p: Parameters, r0: Word, bits: Word): (crc: Word)
    requires p.Valid() && |r0| == p.n
    ensures |crc| == p.n && Fits(crc, p.w)
  {
    Finalize(p, RemainderOf(p, r0, bits), Toggle(p))
  }

  function Crc(p: Parameters, data: seq<Byte>): (crc: Word)
    requires p.Valid()
    ensures |crc| == p.n && Fits(crc, p.w)
  {
    CrcFrom(p, p.initialValue, Stream(p.reflectInput, data))
  }

  function CrcMore(p: Parameters, data: seq<Byte>, crc: Word): Word
    requires p.Valid() && |crc| == p.n
  {
    CrcFrom(p, UndoFinalize(p, crc, Toggle(p)), Stream(p.reflectInput, data))
  }

  /** Two remainders of the same stream finalise to the same CRC, whatever they hold above bit w. */
  lemma TrackedCrc(p: Parameters, r0: Word, bits: Word, r: Word)
    requires p.Valid() && |r0| == p.n && Tracks(p, r0, bits, r)
    ensures Finalize(p, r, Toggle(p)) == CrcFrom(p, r0, bits)
  {
    ResizedPrefix(Feed(p.Poly(), r0[..p.w], bits), p.n);
    if !p.reflectInput {
      FinalizeLow(p, r, RemainderOf(p, r0, bits), Toggle(p));
    }
  }

  // ----- what finishing and resuming do, bit by bit

  /** Which bit of a remainder, CRC bit i comes from, and the other way round. */
  function FromBit(p: Parameters, i: nat): nat
    requires i < p.w
  {
    if p.reflectInput != p.reflectOutput then p.w - 1 - i else i
  }

  /** The CRC is the remainder's low bits, turned round when input and output differ in that, with the final XOR, and zero above. */
  ghost predicate Reads(p: Parameters, r: Word, crc: Word)
    requires p.Valid() && |r| == |crc| == p.n
  {
    && (forall i :: 0 <= i < p.w ==> crc[i] == (r[FromBit(p, i)] != p.finalXOR[i]))
    && (forall i :: p.w <= i < p.n ==> !crc[i])
  }

  /** The CRC of these bits from r0: it reads as every remainder that tracks them. */
  ghost predicate Finished(p: Parameters, r0: Word, bits: Word, crc: Word)
    requires p.Valid() && |r0| == p.n
  {
    |crc| == p.n && forall r :: Tracks(p, r0, bits, r) ==> Reads(p, r, crc)
  }

  /** r0 is what a CRC is resumed from: its bits without the final XOR, turned back, and the final XOR's bits above unless they are cut off. */
  ghost predicate Resumes(p: Parameters, crc: Word, r0: Word)
    requires p.Valid() && |crc| == p.n
  {
    && |r0| == p.n
    && (forall i :: 0 <= i < p.w ==> r0[i] == (crc[FromBit(p, i)] != p.finalXOR[FromBit(p, i)]))
    && (forall i :: p.w <= i < p.n ==> r0[i] == (p.reflectInput == p.reflectOutput && p.finalXOR[i]))
  }

  /** The CRC of these bits continued from a CRC. */
  ghost predicate Continued(p: Parameters, crc: Word, bits: Word, crc': Word)
    requires p.Valid() && |crc| == p.n
  {
    forall r0 :: Resumes(p, crc, r0) ==> Finished(p, r0, bits, crc')
  }

  lemma FinalizeReads(p: Parameters, r: Word)
    requires p.Valid() && |r| == p.n
    ensures Reads(p, r, Finalize(p, r, Toggle(p)))
  {
    var t := if Toggle(p) then ReflectLow(r, p.w) else r;
    forall i | 0 <= i < p.w ensures Finalize(p, r, Toggle(p))[i] == (r[FromBit(p, i)] != p.finalXOR[i]) {
      assert t[i] == r[FromBit(p, i)];
    }
  }

  /** Some remainder tracks every stream, so a finished CRC has something to read. */
  lemma SomeTracks(p: Parameters, r0: Word, bits: Word)
    requires p.Valid() && |r0| == p.n
    ensures Tracks(p, r0, bits, RemainderOf(p, r0, bits))
  {
    ResizedPrefix(Feed(p.Poly(), r0[..p.w], bits), p.n);
  }

  lemma CrcFinished(p: Parameters, r0: Word, bits: Word)
    requires p.Valid() && |r0| == p.n
    ensures Finished(p, r0, bits, CrcFrom(p, r0, bits))
  {
    forall r | Tracks(p, r0, bits, r) ensures Reads(p, r, CrcFrom(p, r0, bits)) {
      TrackedCrc(p, r0, bits, r);
      FinalizeReads(p, r);
    }
  }

  lemma UndoResumes(p: Parameters, crc: Word)
    requires p.Valid() && |crc| == p.n
    ensures Resumes(p, crc, UndoFinalize(p, crc, Toggle(p)))
    ensures forall r0 :: Resumes(p, crc, r0) ==> r0 == UndoFinalize(p, crc, Toggle(p))
  {
    var u := UndoFinalize(p, crc, Toggle(p));
    forall i | 0 <= i < p.w ensures u[i] == (crc[FromBit(p, i)] != p.finalXOR[FromBit(p, i)]) {
      UndoBit(p, crc, i);
    }
  }

  lemma UndoBit(p: Parameters, crc: Word, i: nat)
    requires p.Valid() && |crc| == p.n && i < p.w
    ensures UndoFinalize(p, crc, Toggle(p))[i] == (crc[FromBit(p, i)] != p.finalXOR[FromBit(p, i)])
  {
    var x, k := Xor(KeepLow(crc, p.w), p.finalXOR), FromBit(p, i);
    assert x[k] == (crc[k] != p.finalXOR[k]);
  }

  lemma CrcContinued(p: Parameters, crc: Word, bits: Word)
    requires p.Valid() && |crc| == p.n
    ensures Continued(p, crc, bits, CrcFrom(p, UndoFinalize(p, crc, Toggle(p)), bits))
  {
    UndoResumes(p, crc);
    CrcFinished(p, UndoFinalize(p, crc, Toggle(p)), bits);
  }

  method Calculate(data: seq<Byte>, p: Parameters) returns (crc: Word)
    requires p.Valid()
    ensures crc == Crc(p, data)
    ensures Finished(p, p.initialValue, Stream(p.reflectInput, data), crc)
  {
    CrcFinished(p, p.initialValue, Stream(p.reflectInput, data));
    var remainder := CalculateRemainder(data, p, p.initialValue);
    TrackedCrc(p, p.initialValue, Stream(p.reflectInput, data), remainder);
    crc := Finalize(p, remainder, p.reflectInput != p.reflectOutput);
  }

  method CalculateMore(data: seq<Byte>, p: Parameters, crc: Word) returns (crc': Word)
    requires p.Valid() && |crc| == p.n
    ensures crc' == CrcMore(p, data, crc)
    ensures Continued(p, crc, Stream(p.reflectInput, data), crc')
  {
    CrcContinued(p, crc, Stream(p.reflectInput, data));
    var r0 := UndoFinalize(p, crc, p.reflectInput != p.reflectOutput);
    var remainder := CalculateRemainder(data, p, r0);
    TrackedCrc(p, r0, Stream(p.reflectInput, data), remainder);
    crc' := Finalize(p, remainder, p.reflectInput != p.reflectOutput);
  }

  method CalculateByTable(data: seq<Byte>, p: Parameters, table: array<Word>) returns (crc: Word)
    requires p.Valid() && IsTable(p, table[..])
    ensures crc == Crc(p, data)
    ensures Finished(p, p.initialValue, Stream(p.reflectInput, data), crc)
  {
    CrcFinished(p, p.initialValue, Stream(p.reflectInput, data));
    var remainder := CalculateRemainderTable(data, p, table, p.initialValue);
    TrackedCrc(p, p.initialValue, Stream(p.reflectInput, data), remainder);
    crc := Finalize(p, remainder, p.reflectInput != p.reflectOutput);
  }

  method CalculateMoreByTable(data: seq<Byte>, p: Parameters, table: array<Word>, crc: Word) returns (crc': Word)
    requires p.Valid() && IsTable(p, table[..]) && |crc| == p.n
    ensures crc' == CrcMore(p, data, crc)
    ensures Continued(p, crc, Stream(p.reflectInput, data), crc')
  {
    CrcContinued(p, crc, Stream(p.reflectInput, data));
    var r0 := UndoFinalize(p, crc, p.reflectInput != p.reflectOutput);
    var remainder := CalculateRemainderTable(data, p, table, r0);
    TrackedCrc(p, r0, Stream(p.reflectInput, data), remainder);
    crc' := Finalize(p, remainder, p.reflectInput != p.reflectOutput);
  }

  /** The CRC-32 of Ethernet. */
  function Crc32(): (p: Parameters)
    ensures p.Valid()
  {
    Parameters(32, 32, BitsOf(0x04C11DB7, 32), seq(32, _ => true), seq(32, _ => true), true, true)
  }

  /** The CRC-32 of no data is zero. */
  lemma Crc32OfNothing()
    ensures Crc(Crc32(), []) == Zeros(32)
  {
    var p := Crc32();
    CrcFinished(p, p.initialValue, []);
    TracksStart(p, p.initialValue);
    assert Reads(p, p.initialValue, Crc(p, []));
  }

  /** Which bit of which byte the register takes as its k-th byte's i-th bit. */
  lemma {:induction false} StreamBit(reflect: bool, data: seq<Byte>, k: nat, i: nat)
    requires k < |data| && i < 8
    ensures Stream(reflect, data)[8 * k + i] == data[k][if reflect then i else 7 - i]
    decreases |data|
  {
    if k < |data| - 1 {
      StreamBit(reflect, data[..|data| - 1], k, i);
    }
  }
}
