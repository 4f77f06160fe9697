/** The sending side of the FIC, and the round trip through `fic_decode`. */
module FicSender {
  import opened Bits
  import opened ByteBits
  import opened Trellis
  import opened Viterbi
  import opened Decoding
  import opened Encoder
  import opened Puncturing
  import opened Depuncture
  import opened ErrorCorrection
  import opened FicPuncture
  import opened Scrambler
  import opened CrcRegister
  import opened CrcChecks
  import CrcCcitt
  import opened Interleaver
  import opened Symbols
  import opened Fic

  /** The highest l bits of a word, highest first. */
  function WordBits(w: bv16, l: nat): (x: seq<bit>)
    ensures |x| == l
    decreases l
  {
    if l == 0 then [] else [if Top(w) then 1 else 0] + WordBits(Shift(w), l - 1)
  }

  lemma {:induction false} WindowOfWord(x: seq<bit>, i: nat, l: nat, w: bv16)
    requires i + l <= |x| && x[i..i + l] == WordBits(w, l)
    ensures Window(x, i, l) == Masked(w, OnesWindow(l))
    decreases l
  {
    hide Join, Masked, Top, Shift, TopBit;
    if l > 0 {
      assert x[i + 1..i + l] == x[i..i + l][1..];
      WindowOfWord(x, i + 1, l - 1, Shift(w));
      JoinMasked(w, x[i], OnesWindow(l - 1));
    } else {
      MaskedAll(w);
    }
  }

  function Masked(w: bv16, m: bv16): bv16 {
    w & m
  }

  lemma MaskedAll(w: bv16)
    ensures Masked(w, 0xffff) == w && Masked(w, 0) == 0
  {
  }

  lemma {:induction false} JoinMasked(w: bv16, b: bit, m: bv16)
    requires b == if Top(w) then 1 else 0
    ensures Join(TopBit(b), Masked(Shift(w), m)) == Masked(w, Join(0x8000, m))
  {
    assert w & 0x8000 == 0 || w & 0x8000 == 0x8000;
  }

  lemma {:induction false} WordOfWindow(x: seq<bit>, i: nat, l: nat)
    requires i + l <= |x| && l <= 16
    ensures WordBits(Window(x, i, l), l) == x[i..i + l]
    decreases l
  {
    hide Join, Top, Shift, TopBit;
    if l > 0 {
      WordOfWindow(x, i + 1, l - 1);
      WindowLowClear(x, i + 1, l - 1);
      SplitJoin(x[i], Window(x, i + 1, l - 1));
      assert x[i..i + l] == [x[i]] + x[i + 1..i + l];
    }
  }

  lemma {:induction false} SplitJoin(b: bit, v: bv16)
    requires LowClear(v)
    ensures Top(Join(TopBit(b), v)) <==> b == 1
    ensures Shift(Join(TopBit(b), v)) == v
  {
    assert (v >> 1) & 0x8000 == 0;
  }

  /** The complemented CRC of a payload. */
  function CrcWord(p: seq<byte>): bv16 {
    Add(Remainder(CrcCcitt.POLY, 0xffff, p), 0xffff)
  }

  /** A fast information block: 30 bytes and their complemented CRC. */
  function FibBits(p: seq<byte>): fib
    requires |p| == 30
  {
    DataBits(p) + WordBits(CrcWord(p), 16)
  }

  /** The last 16 bits decide: they must be the complemented CRC of the others. */
  lemma {:induction false} GoodByWindow(x: fib)
    ensures Good(x) <==> Window(x, 240, 16) == Add(Crc(CrcCcitt.POLY, 0xffff, x, 240), 0xffff)
  {
    hide Serial, Crc, Window, Add, Zeros;
    var poly: bv16 := CrcCcitt.POLY;
    var c, w := Crc(poly, 0xffff, x, 240), Window(x, 240, 16);
    SerialGood(x);
    FeedWindow(poly, 0xffff, x, 240, 16);
    ZerosOfOnes();
    ZerosLinear(poly, Add(c, w), 0xffff, 16);
    AddEqual(Zeros(poly, Add(c, w), 16), 0x1d0f);
    ZerosInjective(poly, Add(Add(c, w), 0xffff), 16);
    AddAssoc(c, w, 0xffff);
    AddEqual(Add(c, w), 0xffff);
    SumIs(c, w, 0xffff);
  }

  lemma SumIs(a: bv16, b: bv16, c: bv16)
    ensures Add(a, b) == c <==> b == Add(a, c)
  {
    hide Add;
    AddCancel(a, b);
    AddCancel(a, c);
    AddCancel(b, a);
    AddCancel(c, a);
  }

  /** Payload and bits of a block determine each other. */
  lemma {:induction false} PayloadBits(x: fib)
    ensures DataBits(Payload(x)) == x[..240]
  {
    hide BitAt, PackedByte, DataBits;
    PackedPrefix(x);
    BitsUndoPack(true, x[..240]);
  }

  lemma {:induction false} PackedPrefix(x: fib)
    ensures Packed(true, x)[..30] == Packed(true, x[..240])
  {
    hide Weighted;
    forall j | 0 <= j < 30 ensures Packed(true, x)[j] == Packed(true, x[..240])[j] {
    }
  }

  lemma {:induction false} PayloadOfFib(p: seq<byte>)
    requires |p| == 30
    ensures Payload(FibBits(p)) == p
  {
    hide BitAt, PackedByte, DataBits, CrcWord;
    PackedPrefix(FibBits(p));
    assert FibBits(p)[..240] == DataBits(p);
    PackUndoesBits(true, p);
  }

  /** `fic_decode` keeps exactly the blocks whose last 16 bits are the complemented CRC of the
      first 240: every such block, and no other. */
  lemma {:induction false} GoodIff(x: fib)
    ensures Good(x) <==> x == FibBits(Payload(x))
  {
    hide BitAt, Good, Payload, DataBits, Window, Crc, Add, Masked;
    var p := Payload(x);
    PayloadBits(x);
    GoodByWindow(x);
    SamePrefix(CrcCcitt.POLY, 0xffff, x, DataBits(p), 240);
    assert x == x[..240] + x[240..256];
    WordOfWindow(x, 240, 16);
    if x == FibBits(p) {
      assert x[240..256] == WordBits(CrcWord(p), 16);
      WindowOfWord(x, 240, 16, CrcWord(p));
      FullWindow();
      MaskedAll(CrcWord(p));
    }
  }

  /** Three payloads as the 768 bits of a block. */
  function BlockOf(p: seq<byte>, q: seq<byte>, r: seq<byte>): block
    requires |p| == |q| == |r| == 30
  {
    hide FibBits;
    var x: seq<bit> := seq(BLOCK, i requires 0 <= i < BLOCK =>
      FibBits(if i < 256 then p else if i < 512 then q else r)[i % 256]);
    x
  }

  /** A block as it is sent: dispersed, encoded, punctured. */
  function SentBlock(u: block): (b: seq<bit>)
    ensures |b| == SENT
  {
    hide Dispersed, Code, FicMask, Count, Punctured;
    FicTotals();
    Punctured(FicMask(), Codeword(Dispersed(u)), CODED)
  }

  /** The depunctured block is the code word with erasures. */
  lemma {:induction false} SoftOfSent(c: seq<bit>, b: seq<bit>)
    requires |c| == CODED && |b| == SENT && b == Punctured(FicMask(), c, CODED)
    ensures Erases(c, FicMask(), FicSoft(b)) && KeepsFirst(FicMask())
  {
    hide FicMask, Count, Punctured;
    FicTotals();
    forall i | 0 <= i < CODED ensures FicSoft(b)[i] == if FicMask()[i] then SoftSymbol(c[i]) else ERASED {
      if FicMask()[i] {
        PuncturedAt(FicMask(), c, CODED, i);
      }
    }
  }

  lemma {:induction false} CodewordLength(u: block)
    ensures |Codeword(u)| == CODED
  {
    hide Code;
  }

  /** Depuncturing, decoding and descrambling restore a block. */
  lemma {:induction false} BlockRoundTrip(m: Mettab, g: int, w: int, x: seq<byte>, f: nat, u: block)
    requires Symmetric(m, g, w) && |x| == FIC_BITS && f < 4
    requires x[SENT * f..SENT * f + SENT] == SentBlock(u)
    ensures FicBlock(m, x, f) == u
  {
    hide Codeword, FicMask, Dispersed, Decoded, Received, FicSoft, Count, Punctured;
    var v: block := Dispersed(u);
    CodewordLength(v);
    SoftOfSent(Codeword(v), SentBlock(u));
    NoiselessRoundTrip(m, g, w, v, FicMask(), FicSoft(SentBlock(u)));
    DispersedTwice(u);
  }

  /** Twelve payloads of 30 bytes. */
  predicate Payloads(ps: seq<seq<byte>>) {
    |ps| == 12 && forall k :: 0 <= k < 12 ==> |ps[k]| == 30
  }

  /** The four blocks that carry twelve payloads. */
  function Blocks(ps: seq<seq<byte>>): (us: seq<block>)
    requires Payloads(ps)
    ensures |us| == 4
  {
    hide BlockOf;
    [BlockOf(ps[0], ps[1], ps[2]), BlockOf(ps[3], ps[4], ps[5]),
     BlockOf(ps[6], ps[7], ps[8]), BlockOf(ps[9], ps[10], ps[11])]
  }

  /** The 9216 bits that carry four blocks. */
  function SentFrame(us: seq<block>): (x: seq<bit>)
    requires |us| == 4
    ensures |x| == FIC_BITS
  {
    hide SentBlock;
    seq(FIC_BITS, i requires 0 <= i < FIC_BITS => SentBlock(us[i / SENT])[i % SENT])
  }

  lemma {:induction false} BlocksRestored(m: Mettab, g: int, w: int, us: seq<block>, x: seq<byte>, f: nat)
    requires Symmetric(m, g, w) && |us| == 4 && f < 4 && x == SentFrame(us)
    ensures FicBlock(m, x, f) == us[f]
  {
    hide SentBlock, FicBlock;
    assert x[SENT * f..SENT * f + SENT] == SentBlock(us[f]) by {
      forall i | SENT * f <= i < SENT * f + SENT ensures x[i] == SentBlock(us[f])[i - SENT * f] {
        assert i / SENT == f && i % SENT == i - SENT * f;
      }
    }
    BlockRoundTrip(m, g, w, x, f, us[f]);
  }

  lemma {:induction false} FibOfBlock(p: seq<byte>, q: seq<byte>, r: seq<byte>)
    requires |p| == |q| == |r| == 30
    ensures FibOf(BlockOf(p, q, r), 0) == FibBits(p)
    ensures FibOf(BlockOf(p, q, r), 1) == FibBits(q)
    ensures FibOf(BlockOf(p, q, r), 2) == FibBits(r)
  {
    hide FibBits, BlockOf, FibOf;
    FibAt(p, q, r, 0);
    FibAt(p, q, r, 1);
    FibAt(p, q, r, 2);
  }

  lemma {:induction false} FibAt(p: seq<byte>, q: seq<byte>, r: seq<byte>, j: nat)
    requires |p| == |q| == |r| == 30 && j < 3
    ensures FibOf(BlockOf(p, q, r), j) == FibBits(if j == 0 then p else if j == 1 then q else r)
  {
    hide FibBits;
    var x := FibBits(if j == 0 then p else if j == 1 then q else r);
    forall i: nat | i < 256 ensures FibOf(BlockOf(p, q, r), j)[i] == x[i] {
      CellOfFib(j, i);
      assert FibOf(BlockOf(p, q, r), j)[i] == BlockOf(p, q, r)[256 * j + i];
    }
  }

  lemma {:induction false} CellOfFib(j: nat, i: nat)
    requires j < 3 && i < 256
    ensures (256 * j + i) % 256 == i && (256 * j + i < 256 <==> j == 0) && (256 * j + i < 512 <==> j < 2)
  {
  }

  /** The twelve FIBs sent are the twelve FIBs received. */
  lemma {:induction false} FibsRestored(m: Mettab, g: int, w: int, us: seq<block>, x: seq<byte>)
    requires Symmetric(m, g, w) && |us| == 4 && x == SentFrame(us)
    ensures FrameFibs(m, x) == Fibs(us)
  {
    hide SentFrame, FicBlock, Fibs;
    BlocksRestored(m, g, w, us, x, 0);
    BlocksRestored(m, g, w, us, x, 1);
    BlocksRestored(m, g, w, us, x, 2);
    BlocksRestored(m, g, w, us, x, 3);
    assert us == seq(4, f requires 0 <= f < 4 => FicBlock(m, x, f));
  }

  lemma {:induction false} FibsOfBlocks(ps: seq<seq<byte>>)
    requires Payloads(ps)
    ensures forall k :: 0 <= k < 12 ==> Fibs(Blocks(ps))[k] == FibBits(ps[k])
  {
    hide BlockOf, FibOf, FibBits;
    FibOfBlock(ps[0], ps[1], ps[2]);
    FibOfBlock(ps[3], ps[4], ps[5]);
    FibOfBlock(ps[6], ps[7], ps[8]);
    FibOfBlock(ps[9], ps[10], ps[11]);
  }

  function Joined(ps: seq<seq<byte>>, n: nat): seq<byte>
    requires n <= |ps|
  {
    if n == 0 then [] else Joined(ps, n - 1) + ps[n - 1]
  }

  lemma {:induction false} AllGood(fibs: seq<fib>, ps: seq<seq<byte>>, n: nat)
    requires Payloads(ps) && |fibs| == 12 && n <= 12 && forall k :: 0 <= k < 12 ==> fibs[k] == FibBits(ps[k])
    ensures GoodCount(fibs, n) == n && Output(fibs, n) == Joined(ps, n)
    decreases n
  {
    hide Good, FibBits, Payload;
    if n > 0 {
      AllGood(fibs, ps, n - 1);
      PayloadOfFib(ps[n - 1]);
      GoodIff(fibs[n - 1]);
    }
  }

  lemma {:induction false} MergedIsSent(x: seq<bit>, s2: Sending, s3: Sending, s4: Sending)
    requires |x| == FIC_BITS
    requires Carries(s2, x[..3072]) && Carries(s3, x[3072..6144]) && Carries(s4, x[6144..9216])
    ensures Merged(s2.sym, s3.sym, s4.sym) == x
  {
    hide Demodulated, Paired, Moved, Packed, Swapped16;
    SymbolRoundTrip(x[..3072], s2.q, s2.y, s2.z, s2.sym);
    SymbolRoundTrip(x[3072..6144], s3.q, s3.y, s3.z, s3.sym);
    SymbolRoundTrip(x[6144..9216], s4.q, s4.y, s4.z, s4.sym);
    assert x == x[..3072] + x[3072..6144] + x[6144..9216];
  }

  /** Three symbols carry twelve payloads. */
  ghost predicate OnAir(ps: seq<seq<byte>>, s2: Sending, s3: Sending, s4: Sending)
    requires Payloads(ps)
  {
    hide Carries, SentFrame, Blocks;
    var x := SentFrame(Blocks(ps));
    Carries(s2, x[..3072]) && Carries(s3, x[3072..6144]) && Carries(s4, x[6144..9216])
  }

  lemma {:induction false} OnAirRestored(m: Mettab, g: int, w: int, ps: seq<seq<byte>>,
                                         s2: Sending, s3: Sending, s4: Sending)
    requires Symmetric(m, g, w) && Payloads(ps) && OnAir(ps, s2, s3, s4)
    ensures |s2.sym| == |s3.sym| == |s4.sym| == SYMBOL_BYTES
    ensures FrameFibs(m, Merged(s2.sym, s3.sym, s4.sym)) == Fibs(Blocks(ps))
  {
    hide Paired, Moved, Packed, Swapped16, SentFrame, FrameFibs, Merged, Fibs, Blocks;
    MergedIsSent(SentFrame(Blocks(ps)), s2, s3, s4);
    FibsRestored(m, g, w, Blocks(ps), SentFrame(Blocks(ps)));
  }

  /** All twelve payloads have been written to the buffer, in order. */
  predicate Restored(ps: seq<seq<byte>>, before: seq<byte>, after: seq<byte>, okfibs: nat) {
    Payloads(ps) && |before| >= 360 && okfibs == 12 && after == Joined(ps, |ps|) + before[360..]
  }

  /** The whole FIC: any twelve payloads come back, all good and in order. */
  lemma {:induction false} FicRoundTrip(m: Mettab, g: int, w: int, ps: seq<seq<byte>>,
                                        s2: Sending, s3: Sending, s4: Sending,
                                        before: seq<byte>, after: seq<byte>, okfibs: nat)
    requires Symmetric(m, g, w) && Payloads(ps) && OnAir(ps, s2, s3, s4) && |before| >= 360
    requires |s2.sym| == |s3.sym| == |s4.sym| == SYMBOL_BYTES
    requires FicOutput(m, s2.sym, s3.sym, s4.sym, before, after, okfibs)
    ensures Restored(ps, before, after, okfibs)
  {
    hide OnAir, FrameFibs, FibBits, Merged, Fibs, Blocks;
    OnAirRestored(m, g, w, ps, s2, s3, s4);
    FibsOfBlocks(ps);
    AllGood(Fibs(Blocks(ps)), ps, |ps|);
  }

  /** For hard bits, the unrolled depuncturing and the mapping in front of the decoder are the
      generic loop with l = (21, 3, 0, 0). */
  lemma {:induction false} UnrolledIsGeneric(b: seq<bit>)
    requires |b| == SENT
    ensures Count(Mask(FicBlocks()), |Mask(FicBlocks())|) == SENT && FicSoft(b) == Filled(Mask(FicBlocks()), b)
  {
    hide FicMask, Mask;
    FicTotals();
    FicMaskIsProfile();
    forall i | 0 <= i < CODED ensures FicSoft(b)[i] == FilledAt(Mask(FicBlocks()), b, i) {
      if FicMask()[i] {
        CountMono(FicMask(), i + 1, CODED);
        SoftOfHard(b[Count(FicMask(), i)]);
      }
    }
  }

  lemma {:induction false} SoftOfHard(b: bit)
    ensures SoftBit(b) == SoftOf(b) == SoftSymbol(b)
  {
  }

  /** What `encode` makes of the bytes of a block, with both states 0, is the code word of its bits. */
  lemma {:induction false} EncodedIsCodeword(u: seq<bit>)
    requires |u| % 8 == 0
    ensures Code(0, DataBits(Packed(true, u)) + TailBits(0)) == Codeword(u)
  {
    hide Code, PackedByte;
    BitsUndoPack(true, u);
    NoTail();
    assert Flushed(u) == u + TailBits(0);
  }

  lemma NoTail()
    ensures TailBits(0) == [0, 0, 0, 0, 0, 0]
  {
    assert BitAt(0, 0) == 0 && BitAt(0, 1) == 0 && BitAt(0, 2) == 0;
    assert BitAt(0, 3) == 0 && BitAt(0, 4) == 0 && BitAt(0, 5) == 0;
  }

  // Transmission errors.

  lemma FicKeepsTwo()
    ensures KeepsEach(FicMask(), 2)
  {
    hide FicMask;
    FicMaskAt(0, 0);
    forall q | 0 <= q < 774 ensures KeepsGroup(FicMask(), 2, q) {
      FicMaskAt(q, 0);
      FicMaskAt(q, 1);
    }
  }

  /** A block with at most four wrong bits is restored. */
  lemma {:induction false} BlockCorrected(m: Mettab, g: int, w: int, x: seq<bit>, f: nat, u: block)
    requires Symmetric(m, g, w) && 4 * (g - w) < 999999 && |x| == FIC_BITS && f < 4
    requires Errors(SentBlock(u), x[SENT * f..SENT * f + SENT], SENT) <= 4
    ensures FicBlock(m, x, f) == u
  {
    hide Codeword, FicMask, Mask, Dispersed, Decoded, Received, FicSoft, Filled, Count, Punctured, Errors, KeepsEach;
    var b: seq<bit>, v: block := x[SENT * f..SENT * f + SENT], Dispersed(u);
    FicTotals();
    FicMaskIsProfile();
    CodewordLength(v);
    FicKeepsTwo();
    UnrolledIsGeneric(b);
    MulMono(g - w, Errors(SentBlock(u), b, SENT), 4);
    TransmissionCorrected(m, g, w, FicMask(), v, b, 2);
    DispersedTwice(u);
  }

  /** At most four wrong bits in each of the four blocks. */
  predicate FewErrors(us: seq<block>, x: seq<bit>)
    requires |us| == 4 && |x| == FIC_BITS
  {
    hide SentBlock, Errors;
    forall f :: 0 <= f < 4 ==> Errors(SentBlock(us[f]), x[SENT * f..SENT * f + SENT], SENT) <= 4
  }

  lemma {:induction false} BlocksCorrected(m: Mettab, g: int, w: int, us: seq<block>, x: seq<bit>)
    requires Symmetric(m, g, w) && 4 * (g - w) < 999999 && |us| == 4 && |x| == FIC_BITS && FewErrors(us, x)
    ensures FrameFibs(m, x) == Fibs(us)
  {
    hide SentBlock, FicBlock, Fibs, Errors;
    BlockCorrected(m, g, w, x, 0, us[0]);
    BlockCorrected(m, g, w, x, 1, us[1]);
    BlockCorrected(m, g, w, x, 2, us[2]);
    BlockCorrected(m, g, w, x, 3, us[3]);
    assert us == seq(4, f requires 0 <= f < 4 => FicBlock(m, x, f));
  }

  /** What three symbols carry is twelve payloads, but for at most four wrong bits in each block. */
  ghost predicate AlmostOnAir(ps: seq<seq<byte>>, sym2: seq<byte>, sym3: seq<byte>, sym4: seq<byte>)
    requires Payloads(ps) && |sym2| == |sym3| == |sym4| == SYMBOL_BYTES
  {
    hide Merged, Blocks, FewErrors;
    FewErrors(Blocks(ps), Merged(sym2, sym3, sym4))
  }

  /** The FIC withstands four wrong bits in every block: all payloads come back. */
  lemma {:induction false} FicCorrectsErrors(m: Mettab, g: int, w: int, ps: seq<seq<byte>>,
                                             sym2: seq<byte>, sym3: seq<byte>, sym4: seq<byte>,
                                             before: seq<byte>, after: seq<byte>, okfibs: nat)
    requires Symmetric(m, g, w) && 4 * (g - w) < 999999 && Payloads(ps) && |before| >= 360
    requires |sym2| == |sym3| == |sym4| == SYMBOL_BYTES && AlmostOnAir(ps, sym2, sym3, sym4)
    requires FicOutput(m, sym2, sym3, sym4, before, after, okfibs)
    ensures Restored(ps, before, after, okfibs)
  {
    hide FrameFibs, FibBits, Merged, Fibs, Blocks, FewErrors;
    BlocksCorrected(m, g, w, Blocks(ps), Merged(sym2, sym3, sym4));
    FibsOfBlocks(ps);
    AllGood(Fibs(Blocks(ps)), ps, |ps|);
  }
}
