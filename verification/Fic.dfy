/** The FIC decoder: three symbols in, the CRC-good FIBs out. */
module Fic {
  import opened Bits
  import opened ByteBits
  import opened Trellis
  import opened Viterbi
  import opened Encoder
  import opened FicPuncture
  import opened Scrambler
  import opened CrcChecks
  import opened Interleaver
  import opened Symbols

  const FIC_BITS := 9216
  const BLOCK := 768

  /** The 9216 bits of symbols 2, 3 and 4. */
  function Merged(sym2: seq<byte>, sym3: seq<byte>, sym4: seq<byte>): (x: seq<bit>)
    requires |sym2| == |sym3| == |sym4| == SYMBOL_BYTES
    ensures |x| == FIC_BITS
  {
    seq(FIC_BITS, i requires 0 <= i < FIC_BITS =>
      Demodulated(if i < SYMBOL_BITS then sym2 else if i < 2 * SYMBOL_BITS then sym3 else sym4)[i % SYMBOL_BITS])
  }

  /** The soft symbols of a punctured block. */
  function FicSoft(b: seq<byte>): (y: seq<byte>)
    requires |b| == SENT
    ensures |y| == CODED
  {
    seq(CODED, i requires 0 <= i < CODED => SoftOf(Marked(b, i)))
  }

  /** The 768 bits, three FIBs, of block f. */
  function FicBlock(m: Mettab, x: seq<byte>, f: nat): block
    requires |x| == FIC_BITS && f < 4
  {
    var y := FicSoft(x[SENT * f..SENT * f + SENT]);
    Dispersed(Decoded(Received(m, y), |y| / 4 - 6))
  }

  /** The 256 bits of a fast information block. */
  type fib = x: seq<bit> | |x| == 256 witness seq(256, i => 0)

  function FibOf(d: block, j: nat): fib
    requires j < 3
  {
    d[256 * j..256 * j + 256]
  }

  type block = d: seq<bit> | |d| == BLOCK witness seq(BLOCK, i => 0)

  /** The twelve FIBs of the four blocks of a frame. */
  function Fibs(ds: seq<block>): (fibs: seq<fib>)
    requires |ds| == 4
    ensures |fibs| == 12
  {
    seq(12, k requires 0 <= k < 12 => FibOf(ds[k / 3], k % 3))
  }

  /** The twelve FIBs that three received symbols carry. */
  function FrameFibs(m: Mettab, x: seq<byte>): (fibs: seq<fib>)
    requires |x| == FIC_BITS
    ensures |fibs| == 12
  {
    hide FicBlock, Fibs;
    Fibs(seq(4, f requires 0 <= f < 4 => FicBlock(m, x, f)))
  }

  predicate Good(x: fib) {
    Serial(0xffff, x) == CRC_GOOD
  }

  /** The 30 bytes before the CRC. */
  function Payload(x: fib): (p: seq<byte>)
    ensures |p| == 30
  {
    Packed(true, x)[..30]
  }

  function GoodCount(fibs: seq<fib>, n: nat): (c: nat)
    requires n <= |fibs|
    ensures c <= n
  {
    if n == 0 then 0 else GoodCount(fibs, n - 1) + (if Good(fibs[n - 1]) then 1 else 0)
  }

  /** The payloads of the good ones among the first n FIBs, in order. */
  function Output(fibs: seq<fib>, n: nat): (o: seq<byte>)
    requires n <= |fibs|
    ensures |o| == 30 * GoodCount(fibs, n)
  {
    if n == 0 then []
    else Output(fibs, n - 1) + (if Good(fibs[n - 1]) then Payload(fibs[n - 1]) else [])
  }

  /** Depuncture, decode and descramble one block. */
  method DecodeBlock(data: array<byte>, f: nat, m: Mettab, longBits: wordsize) returns (ficD: array<byte>)
    requires data.Length == FIC_BITS && f < 4
    ensures fresh(ficD) && ficD.Length == BLOCK && ficD[..] == FicBlock(m, data[..], f)
  {
    hide Marked, Received, Decoded, ScrambledAt, Dispersed;
    var ficA := new byte[SENT](_ => 0);
    for i := 0 to SENT
      modifies ficA
      invariant forall k :: 0 <= k < i ==> ficA[k] == data[SENT * f + k]
    {
      ficA[i] := data[SENT * f + i];
    }
    ghost var b := data[SENT * f..SENT * f + SENT];
    assert ficA[..] == b;
    var ficB := new byte[CODED](_ => 0);
    var lenB := DepunctureFic(ficA, ficB);
    var ficC := new byte[BLOCK](_ => 0);
    assert SoftBuffer(ficB[..CODED]) == FicSoft(b);
    var lenC := DecodeHard(ficB, lenB, ficC, m, longBits);
    ghost var u := Decoded(Received(m, FicSoft(b)), BLOCK);
    assert ficC[..] == u;
    ficD := new byte[BLOCK](_ => 0);
    Scramble(ficC, ficD, lenC);
    forall i | 0 <= i < BLOCK ensures ficD[i] == Dispersed(u)[i] {
      ScrambledBit(u, i);
    }
  }

  lemma {:induction false} CellsOne(x: seq<bit>)
    ensures Cells(x, 1) == x
    decreases |x|
  {
    hide BitAt;
    if x != [] {
      var n := |x| - 1;
      CellsOne(x[..n]);
      CellOne(x[n]);
    }
  }

  lemma {:induction false} CellOne(b: bit)
    ensures Cell(b, 1) == [b]
  {
    assert BitAt(b, 0) == b;
  }

  method CopyFib(ficD: array<byte>, off: nat) returns (fibA: array<byte>)
    requires off + 256 <= ficD.Length
    ensures fresh(fibA) && fibA.Length == 256 && fibA[..] == ficD[off..off + 256]
  {
    fibA := new byte[256](_ => 0);
    for i := 0 to 256
      modifies fibA
      invariant forall k :: 0 <= k < i ==> fibA[k] == ficD[off + k]
    {
      fibA[i] := ficD[off + i];
    }
  }

  method PackFib(fibA: array<byte>, ghost x: fib) returns (fibB: array<byte>)
    requires fibA.Length == 256 && fibA[..] == x
    ensures fresh(fibB) && fibB.Length == 32 && fibB[..30] == Payload(x)
  {
    hide PackedByte, Passes;
    fibB := new byte[32](_ => 0);
    WholePasses(32, 8);
    var lenB := BitToByte(true, fibA, 256, fibB);
    assert fibA[..256] == x && fibB[..lenB] == fibB[..];
  }

  /** Check one FIB and append its payload if it is good. */
  method CheckFib(ficD: array<byte>, off: nat, ghost x: fib, obuf: array<byte>, optr: nat) returns (err: nat)
    requires off + 256 <= ficD.Length && ficD[off..off + 256] == x
    requires optr + 30 <= obuf.Length && obuf != ficD
    modifies obuf
    ensures err == if Good(x) then 0 else 1
    ensures Good(x) ==> obuf[..] == old(obuf[..optr]) + Payload(x) + old(obuf[optr + 30..])
    ensures !Good(x) ==> obuf[..] == old(obuf[..])
  {
    hide Serial, PackedByte, Payload, Cells;
    var fibA := CopyFib(ficD, off);
    assert fibA[..256] == x;
    CellsOne(x);
    err := Crc16(fibA, 256, 1);
    var fibB := PackFib(fibA, x);
    if err == 0 {
      CopyPayload(fibB, obuf, optr);
    }
  }

  method CopyPayload(fibB: array<byte>, obuf: array<byte>, optr: nat)
    requires fibB.Length >= 30 && optr + 30 <= obuf.Length && obuf != fibB
    modifies obuf
    ensures obuf[..] == old(obuf[..optr]) + fibB[..30] + old(obuf[optr + 30..])
  {
    for i := 0 to 30
      invariant forall k :: 0 <= k < i ==> obuf[optr + k] == fibB[k]
      invariant forall k :: 0 <= k < obuf.Length && !(optr <= k < optr + i) ==> obuf[k] == old(obuf[k])
    {
      obuf[optr + i] := fibB[i];
    }
  }

  /** Merge the three demodulated symbols. */
  method MergeSymbols(sym2: array<byte>, sym3: array<byte>, sym4: array<byte>,
                      table49: seq<int>) returns (data: array<byte>)
    requires sym2.Length == sym3.Length == sym4.Length == SYMBOL_BYTES && table49 == Table49()
    ensures fresh(data) && data.Length == FIC_BITS && data[..] == Merged(sym2[..], sym3[..], sym4[..])
  {
    hide Demodulated, Table49;
    var data2 := new byte[SYMBOL_BITS](_ => 0);
    var data3 := new byte[SYMBOL_BITS](_ => 0);
    var data4 := new byte[SYMBOL_BITS](_ => 0);
    Demodulate(sym2, 0, table49, data2);
    Demodulate(sym3, 0, table49, data3);
    Demodulate(sym4, 0, table49, data4);
    assert sym2[..SYMBOL_BYTES] == sym2[..] && sym3[..SYMBOL_BYTES] == sym3[..] && sym4[..SYMBOL_BYTES] == sym4[..];
    data := MergeBits(data2, data3, data4);
  }

  method MergeBits(data2: array<byte>, data3: array<byte>, data4: array<byte>) returns (data: array<byte>)
    requires data2.Length == data3.Length == data4.Length == SYMBOL_BITS
    ensures fresh(data) && data.Length == FIC_BITS && data[..] == data2[..] + data3[..] + data4[..]
  {
    data := new byte[FIC_BITS](_ => 0);
    for i := 0 to SYMBOL_BITS
      modifies data
      invariant forall k :: 0 <= k < i ==> data[k] == data2[k]
      invariant forall k :: SYMBOL_BITS <= k < SYMBOL_BITS + i ==> data[k] == data3[k - SYMBOL_BITS]
      invariant forall k :: 2 * SYMBOL_BITS <= k < 2 * SYMBOL_BITS + i ==> data[k] == data4[k - 2 * SYMBOL_BITS]
    {
      data[i] := data2[i];
      data[SYMBOL_BITS + i] := data3[i];
      data[2 * SYMBOL_BITS + i] := data4[i];
    }
  }

  /** The first n FIBs have been checked, and the payloads of the good ones written to the buffer. */
  ghost predicate Delivered(fibs: seq<fib>, n: nat, before: seq<byte>, after: seq<byte>, okfibs: nat)
    requires n <= |fibs| && 30 * n <= |before|
  {
    okfibs == GoodCount(fibs, n) && after == Output(fibs, n) + before[30 * okfibs..]
  }

  /** The output for three received symbols. */
  ghost predicate FicOutput(m: Mettab, sym2: seq<byte>, sym3: seq<byte>, sym4: seq<byte>,
                            before: seq<byte>, after: seq<byte>, okfibs: nat)
    requires |sym2| == |sym3| == |sym4| == SYMBOL_BYTES && |before| >= 360
  {
    hide Merged, FrameFibs, Delivered;
    var fibs := FrameFibs(m, Merged(sym2, sym3, sym4));
    Delivered(fibs, |fibs|, before, after, okfibs)
  }

  lemma {:induction false} NextDelivered(fibs: seq<fib>, n: nat,
                                         before: seq<byte>, mid: seq<byte>, after: seq<byte>, okfibs: nat)
    requires n < |fibs| && 30 * n + 30 <= |before| && Delivered(fibs, n, before, mid, okfibs)
    requires Good(fibs[n]) ==> after == mid[..30 * okfibs] + Payload(fibs[n]) + mid[30 * okfibs + 30..]
    requires !Good(fibs[n]) ==> after == mid
    ensures Delivered(fibs, n + 1, before, after, okfibs + if Good(fibs[n]) then 1 else 0)
  {
    hide Good, Payload;
    assert mid[..30 * okfibs] == Output(fibs, n) && mid[30 * okfibs + 30..] == before[30 * okfibs + 30..];
  }

  lemma {:induction false} NoneDelivered(fibs: seq<fib>, before: seq<byte>)
    ensures Delivered(fibs, 0, before, before, 0)
  {
  }

  lemma {:induction false} FibPlace(ds: seq<block>, i: nat)
    requires |ds| == 4 && i < 12
    ensures i / 3 < 4 && i % 3 < 3 && 256 * (i % 3) + 256 <= 768
    ensures Fibs(ds)[i] == ds[i / 3][256 * (i % 3)..256 * (i % 3) + 256]
  {
  }

  /** FIB i of the frame, from its place in the decoded blocks. */
  method CheckNext(fic: seq<array<byte>>, ghost ds: seq<block>, i: nat, obuf: array<byte>, optr: nat) returns (err: nat)
    requires |fic| == |ds| == 4 && forall f :: 0 <= f < 4 ==> fic[f] != obuf && fic[f][..] == ds[f]
    requires i < 12 && optr + 30 <= obuf.Length
    modifies obuf
    ensures err == if Good(Fibs(ds)[i]) then 0 else 1
    ensures Good(Fibs(ds)[i]) ==> obuf[..] == old(obuf[..optr]) + Payload(Fibs(ds)[i]) + old(obuf[optr + 30..])
    ensures !Good(Fibs(ds)[i]) ==> obuf[..] == old(obuf[..])
    ensures forall f :: 0 <= f < 4 ==> fic[f][..] == ds[f]
  {
    hide Good, Payload, Fibs, FibOf;
    FibPlace(ds, i);
    var d := fic[i / 3];
    assert d[256 * (i % 3)..256 * (i % 3) + 256] == d[..][256 * (i % 3)..256 * (i % 3) + 256];
    err := CheckFib(d, 256 * (i % 3), Fibs(ds)[i], obuf, optr);
  }

  /** Check the twelve FIBs in turn. */
  method CheckFibs(fic: seq<array<byte>>, ghost ds: seq<block>, obuf: array<byte>) returns (okfibs: nat)
    requires |fic| == |ds| == 4 && forall f :: 0 <= f < 4 ==> fic[f] != obuf && fic[f][..] == ds[f]
    requires obuf.Length >= 360
    modifies obuf
    ensures Delivered(Fibs(ds), |Fibs(ds)|, old(obuf[..]), obuf[..], okfibs)
  {
    hide Good, Payload, Delivered, Fibs, FibOf;
    okfibs := 0;
    ghost var fibs, before := Fibs(ds), obuf[..];
    NoneDelivered(fibs, before);
    for i := 0 to 12
      invariant okfibs <= i && Delivered(fibs, i, before, obuf[..], okfibs)
      invariant forall f :: 0 <= f < 4 ==> fic[f][..] == ds[f]
    {
      ghost var mid := obuf[..];
      var err := CheckNext(fic, ds, i, obuf, 30 * okfibs);
      NextDelivered(fibs, i, before, mid, obuf[..], okfibs);
      if err == 0 {
        okfibs := okfibs + 1;
      }
    }
  }

  /** `fic_decode`: for any input at all, the output is exactly the good FIBs, in order. */
  method FicDecode(sym2: array<byte>, sym3: array<byte>, sym4: array<byte>, obuf: array<byte>,
                   m: Mettab, longBits: wordsize) returns (okfibs: nat)
    requires sym2.Length == sym3.Length == sym4.Length == SYMBOL_BYTES && obuf.Length >= 360
    requires obuf != sym2 && obuf != sym3 && obuf != sym4
    modifies obuf
    ensures FicOutput(m, old(sym2[..]), old(sym3[..]), old(sym4[..]), old(obuf[..]), obuf[..], okfibs)
  {
    hide FicBlock, Fibs, Delivered, Merged, Table49;
    var table49 := InitTable49();
    var data := MergeSymbols(sym2, sym3, sym4, table49);
    ghost var x := data[..];
    var d0 := DecodeBlock(data, 0, m, longBits);
    var d1 := DecodeBlock(data, 1, m, longBits);
    var d2 := DecodeBlock(data, 2, m, longBits);
    var d3 := DecodeBlock(data, 3, m, longBits);
    ghost var ds: seq<block> := seq(4, f requires 0 <= f < 4 => FicBlock(m, x, f));
    okfibs := CheckFibs([d0, d1, d2, d3], ds, obuf);
  }
}
