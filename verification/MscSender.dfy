/** The logical frames that a sender makes according to the standard, and what becomes of them in the
    decoder. */
module MscSender {
  import opened Bits
  import opened ByteBits
  import opened ConvCode
  import opened Trellis
  import opened Viterbi
  import opened Decoding
  import opened Tables
  import opened Puncturing
  import opened Depuncture
  import opened Standard
  import opened Scrambler
  import opened FreeDistance
  import opened ErrorCorrection
  import opened Mixing
  import opened MscDecode

  /** A sub-channel as the parser of FIG 0/1 leaves it: the fields agree with the protection tables. */
  predicate Proper(s: Subch) {
    if s.eepprot then
      && 0 <= s.protlvl < 8 && s.subchsz >= EepTable(s.protlvl).sizemul
      && s.bitrate == s.subchsz / EepTable(s.protlvl).sizemul * EepTable(s.protlvl).ratemul
    else
      && 0 <= s.uepIndx < 64 && s.subchsz == UepTable(s.uepIndx).subchsz
      && s.bitrate == UepTable(s.uepIndx).bitrate && s.protlvl == UepTable(s.uepIndx).protlvl
  }

  function SentBlocks(s: Subch): seq<Blk>
    requires Proper(s)
  {
    hide UepTable;
    if s.eepprot then
      ProperUnits(s);
      StandardEep(s.protlvl, s.bitrate / (if s.protlvl < 4 then 8 else 32))
    else StandardUep(s.bitrate, s.protlvl).blocks
  }

  /** What a sender keeps of a code word. */
  function SentMask(s: Subch): seq<bool>
    requires Proper(s)
  {
    Mask(SentBlocks(s))
  }

  lemma {:induction false} EepUnits(subchsz: nat, sizemul: nat)
    requires 0 < sizemul <= subchsz
    ensures subchsz / sizemul >= 1 && subchsz / sizemul * sizemul <= subchsz
  {
  }

  /** The bit rate counts the units of the sub-channel. */
  lemma {:induction false} ProperUnits(s: Subch)
    requires Proper(s) && s.eepprot
    ensures var p := EepTable(s.protlvl);
            var n := s.subchsz / p.sizemul;
            && n >= 1 && n * p.sizemul <= s.subchsz && s.bitrate == n * p.ratemul
            && p.ratemul == (if s.protlvl < 4 then 8 else 32) && s.bitrate / p.ratemul == n
  {
    var p := EepTable(s.protlvl);
    EepUnits(s.subchsz, p.sizemul);
    ExactQuotient(s.subchsz / p.sizemul, p.ratemul);
  }

  lemma {:induction false} ExactQuotient(n: nat, d: nat)
    requires d == 8 || d == 32
    ensures n * d / d == n
  {
  }

  /** Level 2-A at 8 kbit/s, for which the table of the receiver has other vectors than the standard. */
  predicate Level2a8(s: Subch) {
    s.eepprot && s.protlvl == 1 && s.bitrate == 8
  }

  /** Receiver and sender use the same blocks for every other profile. */
  lemma {:induction false} SameBlocks(s: Subch)
    requires Proper(s) && !Level2a8(s)
    ensures WellProtected(s) && SubchBlocks(s) == SentBlocks(s)
  {
    hide UepTable, StandardUep;
    if s.eepprot {
      ProperUnits(s);
    } else {
      UepSize(s.uepIndx);
      TableIsStandard(s.uepIndx);
    }
  }

  lemma {:induction false} UepSize(i: nat)
    requires i < 64
    ensures UepTable(i).subchsz >= 0
  {
  }

  lemma {:induction false} Blocks2a8(s: Subch)
    requires Proper(s) && Level2a8(s)
    ensures WellProtected(s) && SubchBlocks(s) == [Blk(5, 3), Blk(1, 12)] && SentBlocks(s) == [Blk(5, 12), Blk(1, 11)]
    ensures 8 <= s.subchsz < 16
  {
    ProperUnits(s);
  }

  /** The mask of a sender fills the code word of 24 ms at the bit rate and keeps no more than the
      sub-channel carries. */
  lemma {:induction false} SentMaskFits(s: Subch)
    requires Proper(s)
    ensures var mask := SentMask(s);
            && s.bitrate >= 0 && |mask| == 96 * s.bitrate + 24 && KeepsFirstOfFour(mask)
            && Count(mask, |mask|) <= 64 * s.subchsz
  {
    hide Mask, UepTable, Count, KeepsFirstOfFour, SentBlocks, SubchBlocks;
    if Level2a8(s) {
      Blocks2a8(s);
      Eep2aVectorsThatFit();
    } else {
      SameBlocks(s);
      if s.eepprot {
        EepMaskFits(s);
      } else {
        UepMaskFits(s);
      }
    }
  }

  lemma {:induction false} EepMaskFits(s: Subch)
    requires Proper(s) && s.eepprot && WellProtected(s)
    ensures var mask := SubchMask(s);
            && |mask| == 96 * s.bitrate + 24 && KeepsFirstOfFour(mask)
            && Count(mask, |mask|) <= 64 * s.subchsz
            && (s.protlvl == 1 && s.bitrate == 8 ==> Count(mask, |mask|) == 336)
  {
    hide Mask, Count, KeepsFirstOfFour;
    ProperUnits(s);
    EepConservation(s.protlvl, s.subchsz / EepTable(s.protlvl).sizemul);
  }

  lemma {:induction false} UepMaskFits(s: Subch)
    requires Proper(s) && !s.eepprot && WellProtected(s)
    ensures var mask := SubchMask(s);
            && s.bitrate >= 0 && |mask| == 96 * s.bitrate + 24 && KeepsFirstOfFour(mask)
            && Count(mask, |mask|) <= 64 * s.subchsz
  {
    hide Mask, Count, KeepsFirstOfFour, UepTable;
    UepConservation(s.uepIndx);
    UepRowFitsAt(s.uepIndx);
  }

  /** Every proper sub-channel can be decoded, into 3 bytes per kbit/s. */
  lemma {:induction false} ProperFits(s: Subch)
    requires Proper(s)
    ensures Decodable(s) && s.bitrate >= 0 && FrameSize(s) == 3 * s.bitrate
  {
    hide Mask, UepTable, Count, KeepsFirstOfFour, SubchMask, FrameSize;
    ProperProtected(s);
    if s.eepprot {
      EepMaskFits(s);
      ProperUnits(s);
    } else {
      UepMaskFits(s);
    }
    MaskShape(s);
  }

  lemma {:induction false} ProperProtected(s: Subch)
    requires Proper(s)
    ensures WellProtected(s)
  {
    hide UepTable;
    if !s.eepprot {
      UepSize(s.uepIndx);
    }
  }

  /** The receiver uses the mask of the sender exactly when the profile is not level 2-A at 8 kbit/s. */
  lemma {:induction false} SentMaskIff(s: Subch)
    requires Proper(s)
    ensures WellProtected(s) && (SentMask(s) == SubchMask(s) <==> !Level2a8(s))
  {
    hide Mask, UepTable, Count, KeepsFirstOfFour, SentBlocks, SubchBlocks;
    ProperProtected(s);
    if Level2a8(s) {
      Blocks2a8(s);
      Eep2aVectorsThatFit();
      EepMaskFits(s);
    } else {
      SameBlocks(s);
    }
  }

  /** The bits of a logical frame as the standard sends it: dispersed, encoded and punctured. */
  ghost function SentBits(s: Subch, data: seq<byte>): (b: seq<bit>)
    requires Proper(s) && |data| == 3 * s.bitrate
    ensures |b| == Count(SentMask(s), |SentMask(s)|) <= 64 * s.subchsz
  {
    hide Mask, UepTable, Count, SentMask, KeepsFirstOfFour, Code, Dispersed, DataBits, Punctured;
    SentMaskFits(s);
    Punctured<bit>(SentMask(s), Codeword(Dispersed(DataBits(data))), |SentMask(s)|)
  }

  /** They are padded to the capacity units of the sub-channel. */
  ghost predicate SentLogicalFrame(s: Subch, data: seq<byte>, lf: seq<byte>)
    requires Proper(s) && |lf| == 64 * s.subchsz && |data| == 3 * s.bitrate
  {
    hide SentBits, Proper;
    SentBits(s, data) <= lf
  }

  /** The decoder gives back the bytes of the frame, for every profile but one. */
  lemma {:induction false} FrameRoundTrip(m: Mettab, g: int, w: int, s: Subch, data: seq<byte>, lf: seq<byte>)
    requires Symmetric(m, g, w) && Proper(s) && !Level2a8(s) && |lf| == 64 * s.subchsz && |data| == 3 * s.bitrate
    requires SentLogicalFrame(s, data, lf)
    ensures Decodable(s) && FrameBytes(m, s, lf) == data
  {
    hide Mask, UepTable, Count, SubchMask, SentMask, Code, Dispersed, DataBits, Punctured, Proper, Decoded, Received,
      PackedByte, Filled, FrameSize, Decodable;
    ProperFits(s);
    SentMaskIff(s);
    SentMaskFits(s);
    var u, mask := Dispersed(DataBits(data)), SubchMask(s);
    PuncturedBits(mask, Codeword(u), |mask|);
    MaskErases(mask, Codeword(u), lf);
    NoiselessRoundTrip(m, g, w, u, mask, Depunctured(s, lf));
    DispersedTwice(DataBits(data));
    PackUndoesBits(true, data);
  }

  lemma {:induction false} MaskErases(mask: seq<bool>, c: seq<bit>, lf: seq<byte>)
    requires |mask| == |c| && Count(mask, |mask|) <= |lf|
    requires lf[..Count(mask, |mask|)] == Punctured(mask, c, |mask|)
    ensures Erases(c, mask, Filled(mask, lf))
  {
    hide Count, Punctured;
    forall i | 0 <= i < |c| ensures Filled(mask, lf)[i] == if mask[i] then SoftSymbol(c[i]) else ERASED {
      if mask[i] {
        PuncturedAt(mask, c, |mask|, i);
        SoftOfBit(c[i]);
      }
    }
  }

  // Transmission errors.

  lemma {:induction false} FilledPrefix(mask: seq<bool>, lf: seq<byte>, b: seq<byte>)
    requires Count(mask, |mask|) <= |b| && b <= lf
    ensures Filled(mask, lf) == Filled(mask, b)
  {
    hide Count;
    forall i | 0 <= i < |mask| ensures FilledAt(mask, lf, i) == FilledAt(mask, b, i) {
      if mask[i] {
        KeptIndex(mask, i);
      }
    }
  }

  /** Wrong bits in the part of a frame that the code word takes. */
  ghost function WrongBits(s: Subch, data: seq<byte>, lf: seq<bit>): nat
    requires Proper(s) && |lf| == 64 * s.subchsz && |data| == 3 * s.bitrate
  {
    hide SentBits, Proper, Errors;
    Errors(SentBits(s, data), lf, |SentBits(s, data)|)
  }

  /** Decoding is right if it is right for the bits that the mask keeps. */
  lemma {:induction false} FrameOfBits(m: Mettab, s: Subch, data: seq<byte>, lf: seq<bit>)
    requires Proper(s) && !Level2a8(s) && |lf| == 64 * s.subchsz && |data| == 3 * s.bitrate
    requires var mask := SentMask(s);
             Count(mask, |mask|) <= |lf| &&
             var u := Dispersed(DataBits(data));
             Decoded(Received(m, Filled(mask, lf[..Count(mask, |mask|)])), |u|) == u
    ensures Decodable(s) && FrameBytes(m, s, lf) == data
  {
    hide Mask, UepTable, Count, SubchMask, SentMask, Code, Dispersed, DataBits, Proper, Decoded, Received,
      PackedByte, Filled, FrameSize, Decodable;
    ProperFits(s);
    SentMaskIff(s);
    var mask := SubchMask(s);
    FilledPrefix(mask, lf, lf[..Count(mask, |mask|)]);
    DispersedTwice(DataBits(data));
    PackUndoesBits(true, data);
  }

  lemma {:induction false} ErrorsCut(a: seq<bit>, b: seq<bit>, n: nat, k: nat)
    requires k <= n <= |a| && n <= |b|
    ensures Errors(a, b, k) == Errors(a, b[..n], k) && Strays(a, b, k) == Strays(a, b[..n], k)
    decreases k
  {
    if k > 0 {
      ErrorsCut(a, b, n, k - 1);
    }
  }

  /** If the first k symbols of every group are sent, fewer wrong bits than half the free distance are
      corrected. */
  lemma {:induction false} FrameCorrected(m: Mettab, g: int, w: int, s: Subch, data: seq<byte>, lf: seq<bit>, k: nat)
    requires Symmetric(m, g, w) && Proper(s) && !Level2a8(s) && |lf| == 64 * s.subchsz && |data| == 3 * s.bitrate
    requires 1 <= k <= N && KeepsEach(SentMask(s), k)
    requires var e := WrongBits(s, data, lf); 2 * e < Free(k) && (g - w) * e < 999999
    ensures Decodable(s) && FrameBytes(m, s, lf) == data
  {
    hide Mask, UepTable, Count, SentMask, Code, Dispersed, DataBits, Punctured, Proper, Decoded, Received,
      Filled, Errors, Strays, KeepsEach, Free, KeepsFirstOfFour, FrameBytes, Decodable;
    SentMaskFits(s);
    var u, mask := Dispersed(DataBits(data)), SentMask(s);
    var n := Count(mask, |mask|);
    ErrorsCut(SentBits(s, data), lf, n, n);
    TransmissionCorrected(m, g, w, mask, u, lf[..n], k);
    FrameOfBits(m, s, data, lf);
  }

  // Masks that keep two symbols of every group at least.

  /** The vectors from index 7 on. */
  predicate Strong(bs: seq<Blk>) {
    forall i :: 0 <= i < |bs| && bs[i].l > 0 ==> bs[i].pi >= 7
  }

  lemma {:induction false} PrefixOfGroup(pi: int, q: nat)
    requires pi >= 7
    ensures Kept(pi, 4 * q) && Kept(pi, 4 * q + 1) && (Kept(pi, 4 * q + 3) ==> Kept(pi, 4 * q + 2))
  {
    assert (4 * q + 1) / 4 == q && (4 * q + 1) % 4 == 1;
    assert (4 * q + 2) / 4 == q && (4 * q + 2) % 4 == 2;
    assert (4 * q + 3) / 4 == q && (4 * q + 3) % 4 == 3;
  }

  lemma {:induction false} PrefixesAppend(a: seq<bool>, pi: int, n: nat)
    requires KeepsPrefixes(a) && n % 4 == 0 && (n > 0 ==> pi >= 7)
    ensures KeepsPrefixes(a + Block(pi, n))
  {
    hide Kept;
    var mask := a + Block(pi, n);
    forall q | 0 <= q < |mask| / 4 ensures GroupPrefix(mask, q) {
      if 4 * q < |a| {
        assert GroupPrefix(a, q);
      } else {
        PrefixOfGroup(pi, q - |a| / 4);
        assert 4 * q - |a| == 4 * (q - |a| / 4);
      }
    }
  }

  lemma {:induction false} PrefixesOfBlocks(bs: seq<Blk>, k: nat)
    requires k <= |bs| && Strong(bs)
    ensures KeepsPrefixes(MaskOf(bs, k))
    decreases k
  {
    hide KeepsPrefixes, Block;
    if k == 0 {
      NoGroups();
    } else {
      PrefixesOfBlocks(bs, k - 1);
      PrefixesAppend(MaskOf(bs, k - 1), bs[k - 1].pi, 128 * bs[k - 1].l);
    }
  }

  lemma NoGroups()
    ensures KeepsPrefixes([])
  {
  }

  lemma {:induction false} StrongMask(s: Subch)
    requires Proper(s) && Strong(SentBlocks(s))
    ensures KeepsPrefixes(SentMask(s)) && KeepsEach(SentMask(s), 2)
  {
    hide KeepsPrefixes, KeepsEach, Block, SentBlocks, MaskOf;
    var bs := SentBlocks(s);
    PrefixesOfBlocks(bs, |bs|);
    PrefixesAppend(MaskOf(bs, |bs|), 7, 24);
    PrefixesKeepTwo(SentMask(s));
  }

  lemma {:induction false} PrefixesKeepTwo(mask: seq<bool>)
    requires KeepsPrefixes(mask)
    ensures KeepsEach(mask, 2)
  {
    forall q | 0 <= q < |mask| / 4 ensures KeepsGroup(mask, 2, q) {
      assert GroupPrefix(mask, q);
    }
  }

  /** The profiles of that strength: levels 1-A and 1-B, level 2-A above 8 kbit/s, and the first two levels of
      unequal protection. */
  lemma {:induction false} StrongLevels(s: Subch)
    requires Proper(s)
    ensures Strong(SentBlocks(s)) && !Level2a8(s) <==>
              if s.eepprot then s.protlvl == 0 || s.protlvl == 4 || (s.protlvl == 1 && s.bitrate > 8)
              else s.protlvl <= 2
  {
    hide UepTable;
    if s.eepprot {
      StrongEep(s);
    } else {
      TableIsStandard(s.uepIndx);
      StrongRows(s.uepIndx);
    }
  }

  lemma {:induction false} StrongEep(s: Subch)
    requires Proper(s) && s.eepprot
    ensures Strong(SentBlocks(s)) && !Level2a8(s) <==>
              s.protlvl == 0 || s.protlvl == 4 || (s.protlvl == 1 && s.bitrate > 8)
  {
    ProperUnits(s);
    var bs := SentBlocks(s);
    assert bs[0].l > 0 && bs[1].l > 0;
    assert Strong(bs) <==> bs[0].pi >= 7 && bs[1].pi >= 7;
  }

  predicate StrongRow(p: UepProf) {
    (p.l0 > 0 ==> p.pi0 >= 7) && (p.l1 > 0 ==> p.pi1 >= 7) && (p.l2 > 0 ==> p.pi2 >= 7) && (p.l3 > 0 ==> p.pi3 >= 7)
  }

  lemma {:induction false} StrongOfRow(p: UepProf)
    ensures Strong(UepBlocks(p)) <==> StrongRow(p)
  {
    var bs := UepBlocks(p);
    assert bs[0] == Blk(p.l0, p.pi0) && bs[1] == Blk(p.l1, p.pi1);
    assert bs[2] == Blk(p.l2, p.pi2) && bs[3] == Blk(p.l3, p.pi3);
  }

  lemma {:induction false} StrongRows(i: nat)
    requires i < 64
    ensures Strong(UepBlocks(UepTable(i))) <==> UepTable(i).protlvl <= 2
  {
    hide UepTable0, UepTable1, UepTable2, UepTable3;
    hide Strong, StrongRow;
    StrongOfRow(UepTable(i));
    if i < 16 {
      StrongRows0(i);
    } else if i < 32 {
      StrongRows1(i);
    } else if i < 48 {
      StrongRows2(i);
    } else {
      StrongRows3(i);
    }
  }

  lemma {:induction false} StrongRows0(i: nat)
    requires 0 <= i < 16
    ensures StrongRow(UepTable0(i)) <==> UepTable0(i).protlvl <= 2
  {
  }

  lemma {:induction false} StrongRows1(i: nat)
    requires 16 <= i < 32
    ensures StrongRow(UepTable1(i)) <==> UepTable1(i).protlvl <= 2
  {
  }

  lemma {:induction false} StrongRows2(i: nat)
    requires 32 <= i < 48
    ensures StrongRow(UepTable2(i)) <==> UepTable2(i).protlvl <= 2
  {
  }

  lemma {:induction false} StrongRows3(i: nat)
    requires 48 <= i < 64
    ensures StrongRow(UepTable3(i)) <==> UepTable3(i).protlvl <= 2
  {
  }

  /** Wrong bits, every sixteenth left aside. */
  ghost function StrayBits(s: Subch, data: seq<byte>, lf: seq<bit>): nat
    requires Proper(s) && |lf| == 64 * s.subchsz && |data| == 3 * s.bitrate
  {
    hide SentBits, Proper, Strays;
    Strays(SentBits(s, data), lf, |SentBits(s, data)|)
  }

  /** Such a frame is decoded right whatever every sixteenth of its bits says, and even if one of the
      others is wrong. */
  lemma {:induction false} FrameMixed(m: Mettab, g: int, w: int, s: Subch, data: seq<byte>, lf: seq<bit>)
    requires Symmetric(m, g, w) && Proper(s) && !Level2a8(s) && |lf| == 64 * s.subchsz && |data| == 3 * s.bitrate
    requires Strong(SentBlocks(s)) && (g - w) * (4 * s.subchsz + 1) < 999999
    requires StrayBits(s, data, lf) <= 1
    ensures Decodable(s) && FrameBytes(m, s, lf) == data
  {
    hide Mask, UepTable, Count, SentMask, SentBlocks, Code, Dispersed, DataBits, Punctured, Proper, Decoded, Received,
      Filled, Errors, Strays, KeepsPrefixes, KeepsEach, KeepsFirstOfFour, FrameBytes, Decodable;
    SentMaskFits(s);
    StrongMask(s);
    var u, mask := Dispersed(DataBits(data)), SentMask(s);
    var n := Count(mask, |mask|);
    ErrorsCut(SentBits(s, data), lf, n, n);
    SixteenthsOf(n, s.subchsz);
    MulMono(g - w, (n + 15) / 16 + 1, 4 * s.subchsz + 1);
    MixedCorrected(m, g, w, mask, u, lf[..n]);
    FrameOfBits(m, s, data, lf);
  }

  lemma {:induction false} SixteenthsOf(n: nat, subchsz: nat)
    requires n <= 64 * subchsz
    ensures (n + 15) / 16 <= 4 * subchsz
  {
  }

  // What level 2-A at 8 kbit/s loses: the mask of the receiver asks for 336 of the 512 bits, and these carry
  // no more than the first two thirds of the data.

  lemma {:induction false} PuncturedPrefix(mask: seq<bool>, c: seq<bit>, n: nat, k: nat)
    requires k <= n <= |mask| && n <= |c|
    ensures Punctured<bit>(mask, c, k) <= Punctured<bit>(mask, c, n)
    decreases n
  {
    if k < n {
      PuncturedPrefix(mask, c, n - 1, k);
    }
  }

  lemma {:induction false} PuncturedSame(mask: seq<bool>, c: seq<bit>, d: seq<bit>, n: nat)
    requires n <= |mask| && n <= |c| && n <= |d| && forall i :: 0 <= i < n ==> c[i] == d[i]
    ensures Punctured<bit>(mask, c, n) == Punctured<bit>(mask, d, n)
    decreases n
  {
    if n > 0 {
      PuncturedSame(mask, c, d, n - 1);
    }
  }

  /** Code symbols depend on the bits so far only. */
  lemma {:induction false} CodeCausal(x: seq<bit>, z: seq<bit>, t: nat)
    requires t <= |x| && t <= |z| && forall i :: 0 <= i < t ==> x[i] == z[i]
    ensures forall i :: 0 <= i < 4 * t ==> Code(0, x)[i] == Code(0, z)[i]
  {
    hide Out;
    forall i | 0 <= i < 4 * t ensures Code(0, x)[i] == Code(0, z)[i] {
      PrefixState(0, x, z, i / 4);
    }
  }

  lemma {:induction false} SameStart(data: seq<byte>, data': seq<byte>, n: nat)
    requires n <= |data| == |data'| && data[..n] == data'[..n]
    ensures var x, z := Flushed(Dispersed(DataBits(data))), Flushed(Dispersed(DataBits(data')));
            forall i :: 0 <= i < 8 * n ==> x[i] == z[i]
  {
    hide PrbsBit, BitAt;
    forall i | 0 <= i < 8 * n ensures Dispersed(DataBits(data))[i] == Dispersed(DataBits(data'))[i] {
      assert i / 8 < n && data[..n][i / 8] == data[i / 8] && data'[..n][i / 8] == data'[i / 8];
    }
  }

  lemma {:induction false} CountLike(mask: seq<bool>, pi: int, n: nat)
    requires n <= |mask| && forall i :: 0 <= i < n ==> mask[i] == Kept(pi, i)
    ensures Count(mask, n) == CountKept(pi, n)
    decreases n
  {
    hide Kept;
    if n > 0 {
      CountLike(mask, pi, n - 1);
    }
  }

  lemma {:induction false} CountOf512(bs: seq<Blk>)
    requires bs == [Blk(5, 12), Blk(1, 11)]
    ensures |Mask(bs)| >= 512 && Count(Mask(bs), 512) == 336
  {
    hide Mask, Kept, CountKept;
    assert SymbolCount(bs, 0) == 0;
    MaskPart(bs, 0, 511);
    forall i: nat | i < 512 ensures Mask(bs)[i] == Kept(12, i) {
      MaskPart(bs, 0, i);
    }
    CountLike(Mask(bs), 12, 512);
    CountPeriods(12, 16);
  }

  /** The 336 bits that the receiver looks at depend on the first 16 bytes only. */
  lemma {:induction false} SameBits2a8(s: Subch, data: seq<byte>, data': seq<byte>)
    requires Proper(s) && Level2a8(s) && |data| == |data'| == 24 && data[..16] == data'[..16]
    ensures |SentBits(s, data)| >= 336 && |SentBits(s, data')| >= 336
    ensures SentBits(s, data)[..336] == SentBits(s, data')[..336]
  {
    hide Mask, Count, Code, Dispersed, DataBits, Punctured, Flushed, SentBlocks, Proper, KeepsFirstOfFour;
    Blocks2a8(s);
    SentMaskFits(s);
    var mask, x, z := SentMask(s), Flushed(Dispersed(DataBits(data))), Flushed(Dispersed(DataBits(data')));
    CountOf512(SentBlocks(s));
    SameStart(data, data', 16);
    CodeCausal(x, z, 128);
    PuncturedSame(mask, Code(0, x), Code(0, z), 512);
    PuncturedPrefix(mask, Code(0, x), |mask|, 512);
    PuncturedPrefix(mask, Code(0, z), |mask|, 512);
  }

  /** So two frames that agree in their first 16 bytes of 24 are decoded alike: the last third is lost,
      without any error in transmission. */
  lemma {:induction false} LastThirdLost(m: Mettab, s: Subch, data: seq<byte>, data': seq<byte>,
                                         lf: seq<byte>, lf': seq<byte>)
    requires Proper(s) && Level2a8(s) && |lf| == |lf'| == 64 * s.subchsz && |data| == |data'| == 24
    requires SentLogicalFrame(s, data, lf) && SentLogicalFrame(s, data', lf') && data[..16] == data'[..16]
    ensures Decodable(s) && FrameBytes(m, s, lf) == FrameBytes(m, s, lf')
  {
    hide Mask, Count, SubchMask, SentBits, Proper, Filled, FrameSize, Decoded, Received, Dispersed, PackedByte;
    ProperFits(s);
    ProperUnits(s);
    EepMaskFits(s);
    SameBits2a8(s, data, data');
    var b := SentBits(s, data)[..336];
    assert b <= lf && b <= lf';
    FilledPrefix(SubchMask(s), lf, b);
    FilledPrefix(SubchMask(s), lf', b);
  }
}
