/** Where the decoder cannot make up for the mixing of frames: level 4-B at 32 kbit/s, the weakest profile. */
module MixingLimit {
  import opened Bits
  import opened ByteBits
  import opened ConvCode
  import opened Trellis
  import opened Viterbi
  import opened Decoding
  import opened Puncturing
  import opened Tables
  import opened Depuncture
  import opened Scrambler
  import opened FreeDistance
  import opened ErrorCorrection
  import opened Mixing
  import opened SymbolRange
  import opened MscBuffer
  import opened MscDecode
  import opened MscSender
  import opened MscAssemble

  const MESSAGE := 768

  /** The step at which the two messages part. */
  const PART := 736

  /** The bits of an error event, counted from that step. */
  predicate Event(k: int) {
    k == 0 || 2 <= k <= 7 || k == 10 || k == 12 || k == 16 || k == 17 || 20 <= k <= 22
  }

  function Quiet(): (u: seq<bit>)
    ensures |u| == MESSAGE
  {
    seq(MESSAGE, i => 0)
  }

  function LoudAt(i: nat): bit {
    Flag(Event(i - PART))
  }

  function Loud(): (v: seq<bit>)
    ensures |v| == MESSAGE
  {
    seq(MESSAGE, i requires 0 <= i < MESSAGE => LoudAt(i))
  }

  /** Every sixteenth bit of the second word, all others of the first. */
  function Mixed(a: seq<bit>, b: seq<bit>): (c: seq<bit>)
    requires |a| == |b|
    ensures |c| == |a|
  {
    seq(|a|, i requires 0 <= i < |a| => if i % 16 == 0 then b[i] else a[i])
  }

  // The distances of two code words from the mixture of what is sent of them.

  function Gap(c: seq<bit>, d: seq<bit>, y: seq<byte>, n: nat): int
    requires n <= |c| && n <= |d| && n <= |y|
  {
    Distance(d, y, n) - Distance(c, y, n)
  }

  /** y is the mixture, as the decoder gets it. */
  ghost predicate IsMixture(mask: seq<bool>, c: seq<bit>, d: seq<bit>, y: seq<byte>) {
    && |mask| == |c| == |d|
    && y == Filled(mask, Mixed(Punctured<bit>(mask, c, |mask|), Punctured<bit>(mask, d, |mask|)))
  }

  lemma {:induction false} MixtureAt(mask: seq<bool>, c: seq<bit>, d: seq<bit>, y: seq<byte>, i: nat)
    requires IsMixture(mask, c, d, y) && i < |mask|
    ensures |y| == |mask|
    ensures y[i] == if mask[i] then SoftSymbol(if Count(mask, i) % 16 == 0 then d[i] else c[i]) else ERASED
  {
    hide Count, Punctured;
    var a, b := Punctured<bit>(mask, c, |mask|), Punctured<bit>(mask, d, |mask|);
    if mask[i] {
      PuncturedAt(mask, c, |mask|, i);
      PuncturedAt(mask, d, |mask|, i);
      SoftOfBit(Mixed(a, b)[Count(mask, i)]);
    }
  }

  lemma {:induction false} GapStep(mask: seq<bool>, c: seq<bit>, d: seq<bit>, y: seq<byte>, i: nat)
    requires IsMixture(mask, c, d, y) && i < |mask|
    ensures Gap(c, d, y, i + 1) == Gap(c, d, y, i) + Worth(mask[i] && c[i] != d[i], Count(mask, i) % 16 == 0)
  {
    hide Count, IsMixture;
    MixtureAt(mask, c, d, y, i);
  }

  lemma {:induction false} GapStays(mask: seq<bool>, c: seq<bit>, d: seq<bit>, y: seq<byte>, a: nat, b: nat)
    requires IsMixture(mask, c, d, y) && a <= b <= |mask| && forall i :: a <= i < b ==> c[i] == d[i]
    ensures Gap(c, d, y, b) == Gap(c, d, y, a)
    decreases b
  {
    hide Count, Mixed, Filled, Punctured, Gap;
    if a < b {
      GapStays(mask, c, d, y, a, b - 1);
      GapStep(mask, c, d, y, b - 1);
    }
  }

  // The mask of the level.

  function WeakBlocks(): seq<Blk> {
    [Blk(21, 1), Blk(3, 0)]
  }

  /** Bits sent before group k of the event. */
  function SentBefore(k: nat): nat {
    912 + k + (k + 7) / 8
  }

  lemma {:induction false} RankOfEighth(q: nat)
    requires q < 8
    ensures Rank(q) == 0 <==> q == 0
  {
  }

  lemma {:induction false} CountEvent(k: nat)
    requires k <= 32
    ensures CountKept(0, 256 + 4 * k) == 72 + k + (k + 7) / 8
    decreases k
  {
    hide CountKept, Rank;
    if k == 0 {
      CountPeriods(0, 8);
    } else {
      CountEvent(k - 1);
      CountGroup(0, 64 + (k - 1));
      EighthGroup(k - 1);
      RankOfEighth((k - 1) % 8);
    }
  }

  lemma {:induction false} EighthGroup(k: nat)
    ensures (64 + k) % 8 == k % 8
    ensures (k + 8) / 8 == (k + 7) / 8 + (if k % 8 == 0 then 1 else 0)
  {
  }

  lemma {:induction false} WeakMask(k: nat)
    requires k <= 32
    ensures |Mask(WeakBlocks())| == 3096 && 4 * (PART + k) <= 3072
    ensures Count(Mask(WeakBlocks()), 4 * (PART + k)) == SentBefore(k)
  {
    hide Block, CountKept, Count;
    var bs := WeakBlocks();
    WeakStarts();
    var a, n := MaskOf(bs, 1), 256 + 4 * k;
    assert MaskOf(bs, 2) == a + Block(0, 384) && Mask(bs) == MaskOf(bs, 2) + Block(7, 24);
    CountBlock(a, 0, 384, n);
    CountPrefix(MaskOf(bs, 2), Block(7, 24), 2688 + n);
    CountEvent(k);
  }

  lemma {:induction false} WeakStarts()
    ensures var bs := WeakBlocks();
            && |MaskOf(bs, 1)| == 2688 && Count(MaskOf(bs, 1), 2688) == 840
            && |MaskOf(bs, 2)| == 3072 && MaskOf(bs, 2) == MaskOf(bs, 1) + Block(0, 384)
  {
    hide Block, Count, KeepsFirstOfFour;
    var bs := WeakBlocks();
    SymbolsLength(bs, 1);
    SymbolsLength(bs, 2);
    assert SymbolCount(bs, 0) == 0 && SymbolCount(bs, 1) == SymbolCount(bs, 0) + 128 * 21;
    assert SymbolCount(bs, 2) == SymbolCount(bs, 1) + 128 * 3;
    MaskCounts(bs, 1);
    assert KeptSum(bs, 0) == 0 && KeptSum(bs, 1) == KeptSum(bs, 0) + KeptBy(21, 1);
  }

  /** In the event each group keeps its first symbol, and every eighth the second one too. */
  lemma {:induction false} WeakMaskAt(k: nat, j: nat)
    requires k < 32 && j < 4
    ensures |Mask(WeakBlocks())| == 3096
    ensures Mask(WeakBlocks())[4 * (PART + k) + j] <==> j == 0 || (j == 1 && k % 8 == 0)
  {
    hide Mask, Rank;
    WeakMask(0);
    var bs := WeakBlocks();
    var i := 4 * (64 + k) + j;
    assert SymbolCount(bs, 0) == 0 && SymbolCount(bs, 1) == SymbolCount(bs, 0) + 128 * 21;
    MaskPart(bs, 1, i);
    GroupOf(64 + k, j);
    EighthGroup(k);
    RankOfEighth(k % 8);
  }

  lemma {:induction false} GroupOf(q: nat, j: nat)
    requires j < 4
    ensures (4 * q + j) / 4 == q && (4 * q + j) % 4 == j
  {
  }

  // The event.

  lemma {:induction false} DigitsOfEvent(i: nat)
    requires i < MESSAGE + 12
    ensures Differ(Flushed(Quiet()), Flushed(Loud()), i) <==> Event(i - 6 - PART)
  {
    hide Differ;
    SameDigit(Flushed(Quiet()), Flushed(Loud()), i);
    if 6 <= i < MESSAGE + 6 {
      assert Flushed(Quiet())[i - 6] == 0 && Flushed(Loud())[i - 6] == LoudAt(i - 6);
    }
  }

  /** Symbol j of step PART + k differs. */
  predicate EventTapped(k: int, j: nat)
    requires j < N
  {
    hide *;
    Tapped(j, Event(k - 6), Event(k - 5), Event(k - 4), Event(k - 3), Event(k - 2), Event(k - 1), Event(k))
  }

  lemma {:induction false} CodesDiffer(t: nat, j: nat)
    requires t < MESSAGE + 6 && j < N
    ensures Codeword(Quiet())[4 * t + j] != Codeword(Loud())[4 * t + j] <==> EventTapped(t - PART, j)
  {
    hide Code, Differ, Tapped, Event, Quiet, Loud, Flushed;
    CodeDiffers(Flushed(Quiet()), Flushed(Loud()), t, j);
    DigitsOfEvent(t);
    DigitsOfEvent(t + 1);
    DigitsOfEvent(t + 2);
    DigitsOfEvent(t + 3);
    DigitsOfEvent(t + 4);
    DigitsOfEvent(t + 5);
    DigitsOfEvent(t + 6);
  }

  /** Before the event and after it the code words agree. */
  lemma {:induction false} CodesAgree(i: nat)
    requires i < 4 * PART || 4 * (PART + 29) <= i < 4 * (MESSAGE + 6)
    ensures Codeword(Quiet())[i] == Codeword(Loud())[i]
  {
    hide Code, Quiet, Loud, Flushed;
    CodesDiffer(i / 4, i % 4);
    assert 4 * (i / 4) + i % 4 == i;
    assert i / 4 < PART || i / 4 >= PART + 29;
  }

  /** How group k of the event speaks for the first message. */
  function GroupVote(k: nat): int {
    Worth(EventTapped(k, 0), SentBefore(k) % 16 == 0)
    + (if k % 8 == 0 then Worth(EventTapped(k, 1), (SentBefore(k) + 1) % 16 == 0) else 0)
  }

  function EventVote(k: nat): int {
    if k == 0 then 0 else EventVote(k - 1) + GroupVote(k - 1)
  }

  /** The bits sent in group k are foreign where their number is a multiple of 16. */
  lemma {:induction false} ForeignAt(k: nat)
    requires k < 29
    ensures SentBefore(k) % 16 == 0 <==> k == 0 || k == 14 || k == 28
    ensures k % 8 == 0 ==> (SentBefore(k) + 1) % 16 != 0
  {
  }

  lemma {:induction false} FirstVotes(k: nat)
    requires k < 29
    ensures EventTapped(k, 0) <==> k == 0 || k == 14 || k == 23 || k == 28
  {
  }

  lemma {:induction false} SecondVotes(k: nat)
    requires k == 0 || k == 8 || k == 16 || k == 24
    ensures EventTapped(k, 1) <==> k == 0
  {
  }

  lemma {:induction false} VoteAt(k: nat)
    requires k < 29
    ensures GroupVote(k) == if k == 14 || k == 28 then -1 else if k == 23 then 1 else 0
  {
    hide EventTapped, SentBefore;
    ForeignAt(k);
    FirstVotes(k);
    if k % 8 == 0 {
      SecondVotes(k);
    }
  }

  function VotesBefore(k: nat): int {
    if k <= 14 then 0 else if k <= 23 then -1 else if k <= 28 then 0 else -1
  }

  /** Five symbols that are sent differ, three of them in mixed bits. */
  lemma {:induction false} EventLost(k: nat)
    requires k <= 29
    ensures EventVote(k) == VotesBefore(k)
    decreases k
  {
    hide GroupVote;
    if k > 0 {
      EventLost(k - 1);
      VoteAt(k - 1);
    }
  }

  ghost predicate EventMixture(y: seq<byte>) {
    IsMixture(Mask(WeakBlocks()), Codeword(Quiet()), Codeword(Loud()), y)
  }

  lemma {:induction false} MixtureSize(y: seq<byte>)
    requires EventMixture(y)
    ensures |Mask(WeakBlocks())| == 3096 == |y| == |Codeword(Quiet())| == |Codeword(Loud())|
  {
    hide Mask, Code, Quiet, Loud, Punctured, Count, Mixed;
    WeakMask(0);
  }

  lemma {:induction false} CountNext(mask: seq<bool>, i: nat)
    requires i < |mask|
    ensures Count(mask, i + 1) == Count(mask, i) + Flag(mask[i])
  {
  }

  /** Group k of the event. */
  lemma {:induction false} GroupGap(y: seq<byte>, k: nat)
    requires EventMixture(y) && k < 29 && |y| == 3096
    ensures var c, d, i := Codeword(Quiet()), Codeword(Loud()), 4 * (PART + k);
            Gap(c, d, y, i + 4) == Gap(c, d, y, i) + GroupVote(k)
  {
    hide Mask, Code, Flushed, Quiet, Loud, IsMixture, Gap, Count, SentBefore, EventTapped;
    MixtureSize(y);
    var mask, c, d, i := Mask(WeakBlocks()), Codeword(Quiet()), Codeword(Loud()), 4 * (PART + k);
    WeakMask(k);
    WeakMaskAt(k, 0);
    WeakMaskAt(k, 1);
    WeakMaskAt(k, 2);
    WeakMaskAt(k, 3);
    CountNext(mask, i);
    CodesDiffer(PART + k, 0);
    CodesDiffer(PART + k, 1);
    GapStep(mask, c, d, y, i);
    GapStep(mask, c, d, y, i + 1);
    GapStep(mask, c, d, y, i + 2);
    GapStep(mask, c, d, y, i + 3);
  }

  lemma {:induction false} EventGap(y: seq<byte>, k: nat)
    requires EventMixture(y) && k <= 29 && |y| == 3096
    ensures Gap(Codeword(Quiet()), Codeword(Loud()), y, 4 * (PART + k)) == EventVote(k)
    decreases k
  {
    hide Code, Flushed, Quiet, Loud, EventMixture, Gap, GroupVote;
    if k == 0 {
      NoGapBefore(y);
    } else {
      EventGap(y, k - 1);
      GroupGap(y, k - 1);
    }
  }

  lemma {:induction false} NoGapBefore(y: seq<byte>)
    requires EventMixture(y) && |y| == 3096
    ensures Gap(Codeword(Quiet()), Codeword(Loud()), y, 4 * PART) == 0
  {
    hide Mask, Code, Flushed, Quiet, Loud, IsMixture;
    MixtureSize(y);
    var c, d := Codeword(Quiet()), Codeword(Loud());
    forall i | 0 <= i < 4 * PART ensures c[i] == d[i] {
      CodesAgree(i);
    }
    GapStays(Mask(WeakBlocks()), c, d, y, 0, 4 * PART);
  }

  /** The mixture is nearer to the code word of the second message. */
  lemma {:induction false} SecondIsNearer(y: seq<byte>)
    requires EventMixture(y) && |y| == 3096
    ensures Distance(Codeword(Loud()), y, |y|) == Distance(Codeword(Quiet()), y, |y|) - 1
  {
    hide Mask, Code, Flushed, Quiet, Loud, IsMixture, Distance, EventVote;
    MixtureSize(y);
    var c, d := Codeword(Quiet()), Codeword(Loud());
    EventGap(y, 29);
    EventLost(29);
    forall i | 4 * (PART + 29) <= i < 3096 ensures c[i] == d[i] {
      CodesAgree(i);
    }
    GapStays(Mask(WeakBlocks()), c, d, y, 4 * (PART + 29), 3096);
  }

  /** So the decoder does not deliver the first one. */
  lemma {:induction false} MixtureMisleads(m: Mettab, g: int, w: int, y: seq<byte>)
    requires EventMixture(y) && Symmetric(m, g, w) && 3096 * (g - w) < 999999
    ensures Decoded(Received(m, y), MESSAGE) != Quiet()
  {
    hide Mask, Code, Flushed, Quiet, Loud, Distance, Mixed, Punctured, Count, Received, Decoded, Filled;
    MixtureSize(y);
    SecondIsNearer(y);
    var mask := Mask(WeakBlocks());
    var a, b := Punctured<bit>(mask, Codeword(Quiet()), |mask|), Punctured<bit>(mask, Codeword(Loud()), |mask|);
    FilledIsHard(mask, Mixed(a, b));
    NearestCodeword(m, g, w, y, MESSAGE, Loud());
  }

  // The same for frames.

  /** The bytes that become a message. */
  function DataFor(u: seq<bit>): (data: seq<byte>)
    requires |u| == MESSAGE
    ensures |data| == 96
  {
    Packed(true, Dispersed(u))
  }

  lemma {:induction false} MessageOfData(u: seq<bit>)
    requires |u| == MESSAGE
    ensures Dispersed(DataBits(DataFor(u))) == u
  {
    hide Dispersed, DataBits, PackedByte;
    BitsUndoPack(true, Dispersed(u));
    DispersedTwice(u);
  }

  predicate Weakest(s: Subch) {
    s.eepprot && s.protlvl == 7 && s.bitrate == 32
  }

  lemma {:induction false} WeakestMask(s: Subch)
    requires Proper(s) && Weakest(s)
    ensures Decodable(s) && FrameSize(s) == 96 && SentMask(s) == SubchMask(s) == Mask(WeakBlocks())
  {
    hide Mask, Count, FrameSize, SubchMask;
    ProperFits(s);
    ProperUnits(s);
    SentMaskIff(s);
  }

  /** A frame whose sixteenth bits come from the second message. */
  ghost predicate MixedFrame(s: Subch, lf: seq<byte>)
    requires Proper(s) && Weakest(s)
  {
    hide SentBits, Proper, DataFor;
    Mixed(SentBits(s, DataFor(Quiet())), SentBits(s, DataFor(Loud()))) <= lf
  }

  lemma {:induction false} SentFor(s: Subch, u: seq<bit>)
    requires Proper(s) && Weakest(s) && |u| == MESSAGE
    ensures var mask := Mask(WeakBlocks());
            |mask| == 3096 && SentBits(s, DataFor(u)) == Punctured<bit>(mask, Codeword(u), |mask|)
  {
    hide Mask, Count, SubchMask, SentMask, Code, Flushed, Dispersed, DataBits, DataFor, Punctured, FrameSize,
      Proper, Decodable;
    WeakMask(0);
    WeakestMask(s);
    MessageOfData(u);
  }

  lemma {:induction false} FrameMisled(m: Mettab, g: int, w: int, s: Subch, lf: seq<byte>)
    requires Symmetric(m, g, w) && 3096 * (g - w) < 999999
    requires Proper(s) && Weakest(s) && |lf| == 64 * s.subchsz && MixedFrame(s, lf)
    ensures Decodable(s) && FrameBytes(m, s, lf) != DataFor(Quiet())
  {
    hide Mask, Count, SubchMask, SentMask, Code, Flushed, Quiet, Loud, Dispersed, DataBits, Punctured, Proper, Decoded,
      Received, PackedByte, Filled, FrameSize, Decodable, Mixed, SentBits, DataFor;
    WeakestMask(s);
    SentFor(s, Quiet());
    SentFor(s, Loud());
    var mask := SubchMask(s);
    var b := Mixed(SentBits(s, DataFor(Quiet())), SentBits(s, DataFor(Loud())));
    FilledPrefix(mask, lf, b);
    var y := Filled(mask, b);
    MixtureMisleads(m, g, w, y);
    SamePacked(m, s, lf, y);
  }

  lemma {:induction false} SamePacked(m: Mettab, s: Subch, lf: seq<byte>, y: seq<byte>)
    requires Decodable(s) && |lf| == 64 * s.subchsz && FrameSize(s) == 96 && y == Depunctured(s, lf)
    ensures FrameBytes(m, s, lf) == DataFor(Quiet()) ==> Decoded(Received(m, y), MESSAGE) == Quiet()
  {
    hide Depunctured, Quiet, Dispersed, PackedByte, Decoded, Received, FrameSize, Decodable, DataBits;
    var x := FrameBits(m, s, lf);
    BitsUndoPack(true, x);
    BitsUndoPack(true, Dispersed(Quiet()));
    DispersedTwice(Decoded(Received(m, y), MESSAGE));
    DispersedTwice(Quiet());
  }

  /** At level 4-B and 32 kbit/s the mixing is not made up for: there are two frames, sent without any error,
      of which the earlier one is not delivered if the later one follows it sixteen frames after. */
  lemma {:induction false} MixingDefeats(c: Config, g: int, w: int, h: seq<seq<byte>>, frames: int -> seq<byte>)
    requires Configured(c) && Proper(c.s) && Weakest(c.s) && Symmetric(c.m, g, w) && 3096 * (g - w) < 999999
    requires |h| >= 16 && Interleaved(h, c.r.startcu, c.s.subchsz, c.r.numsyms, frames)
    requires SentLogicalFrame(c.s, DataFor(Quiet()), frames(|h| - 17))
    requires SentLogicalFrame(c.s, DataFor(Loud()), frames(|h| - 1))
    ensures Output(c, h) != DataFor(Quiet())
  {
    hide Proper, FrameBytes, Decodable, SentBits, Deinterleaved, Quiet, Loud, DataFor;
    RangeHolds(c.r, c.s.startaddr, c.s.subchsz);
    var a, b := SentBits(c.s, DataFor(Quiet())), SentBits(c.s, DataFor(Loud()));
    var lf := Deinterleaved(h, c.r.startcu, c.s.subchsz, c.r.numsyms);
    forall i | 0 <= i < |a| ensures lf[i] == Mixed(a, b)[i] {
      DeinterleavedMixes(h, c.r.startcu, c.s.subchsz, c.r.numsyms, frames, i);
    }
    FrameMisled(c.m, g, w, c.s, lf);
  }
}
