/** Puncturing of the FIC: the two unrolled routines, and the mask they both follow. */
module FicPuncture {
  import opened Bits
  import opened Puncturing
  import opened Depuncture

  const CODED := 3096
  const SENT := 2304

  /** Symbols kept of every group of four: 21 blocks of 1110 groups, 3 blocks whose every
      eighth group is 1100, and six groups of 1100. */
  function GroupKept(q: nat): nat {
    if q < 672 then 3 else if q < 768 then (if q % 8 == 7 then 2 else 3) else 2
  }

  function FicMask(): (mask: seq<bool>)
    ensures |mask| == CODED
  {
    seq(CODED, i requires 0 <= i < CODED => i % 4 < GroupKept(i / 4))
  }

  /** The same as a protection profile: l = (21, 3), vectors 15 and 14. */
  function FicBlocks(): seq<Blk> {
    [Blk(21, 15), Blk(3, 14)]
  }

  lemma {:induction false} KeptInVectors(q: nat, j: nat)
    requires j < 4
    ensures Kept(15, 4 * q + j) <==> j < 3
    ensures Kept(14, 4 * q + j) <==> j < (if q % 8 == 7 then 2 else 3)
    ensures Kept(7, 4 * q + j) <==> j < 2
  {
    hide Rank;
    Ranks();
    assert (4 * q + j) / 4 == q && (4 * q + j) % 4 == j;
  }

  lemma {:induction false} FicMaskAt(q: nat, j: nat)
    requires q < 774 && j < 4
    ensures FicMask()[4 * q + j] <==> j < GroupKept(q)
  {
    assert (4 * q + j) / 4 == q && (4 * q + j) % 4 == j;
  }

  lemma BlockStarts()
    ensures var bs := FicBlocks();
            SymbolCount(bs, 0) == 0 && SymbolCount(bs, 1) == 2688 && SymbolCount(bs, 2) == 3072
  {
    var bs := FicBlocks();
    assert SymbolCount(bs, 0) == 0;
    assert SymbolCount(bs, 1) == SymbolCount(bs, 0) + 128 * 21;
    assert SymbolCount(bs, 2) == SymbolCount(bs, 1) + 128 * 3;
  }

  lemma {:induction false} FirstMaskAt(q: nat, j: nat)
    requires q < 672 && j < 4
    ensures 4 * q + j < |Mask(FicBlocks())| && (Mask(FicBlocks())[4 * q + j] <==> j < 3)
  {
    hide Mask, Kept, SymbolCount;
    BlockStarts();
    MaskPart(FicBlocks(), 0, 4 * q + j);
    KeptInVectors(q, j);
  }

  lemma {:induction false} SecondMaskAt(q: nat, j: nat)
    requires q < 96 && j < 4
    ensures var i := 2688 + (4 * q + j);
            i < |Mask(FicBlocks())| && (Mask(FicBlocks())[i] <==> j < (if q % 8 == 7 then 2 else 3))
  {
    hide Mask, Kept, SymbolCount;
    BlockStarts();
    MaskPart(FicBlocks(), 1, 4 * q + j);
    KeptInVectors(q, j);
  }

  lemma {:induction false} LastMaskAt(q: nat, j: nat)
    requires q < 6 && j < 4
    ensures var i := 3072 + (4 * q + j);
            |Mask(FicBlocks())| == CODED && (Mask(FicBlocks())[i] <==> j < 2)
  {
    hide Mask, Kept, SymbolCount;
    BlockStarts();
    MaskEnd(FicBlocks());
    KeptInVectors(q, j);
    var k := 4 * q + j;
    assert Mask(FicBlocks())[3072 + k] == Kept(7, k);
  }

  lemma {:induction false} ProfileMaskAt(q: nat, j: nat)
    requires q < 774 && j < 4
    ensures |Mask(FicBlocks())| == CODED && (Mask(FicBlocks())[4 * q + j] <==> j < GroupKept(q))
  {
    hide Mask;
    LastMaskAt(0, 0);
    if q < 672 {
      FirstMaskAt(q, j);
    } else if q < 768 {
      SecondMaskAt(q - 672, j);
      assert 2688 + (4 * (q - 672) + j) == 4 * q + j;
    } else {
      LastMaskAt(q - 768, j);
      assert 3072 + (4 * (q - 768) + j) == 4 * q + j;
    }
  }

  /** The unrolled FIC scheme is the generic one with l = (21, 3, 0, 0). */
  lemma FicMaskIsProfile()
    ensures FicMask() == Mask(FicBlocks())
  {
    hide FicMask, Mask;
    ProfileMaskAt(0, 0);
    forall i | 0 <= i < CODED ensures FicMask()[i] == Mask(FicBlocks())[i] {
      var q, j := i / 4, i % 4;
      assert i == 4 * q + j;
      FicMaskAt(q, j);
      ProfileMaskAt(q, j);
    }
  }

  lemma FicTotals()
    ensures Count(FicMask(), CODED) == SENT && KeepsFirstOfFour(FicMask())
  {
    hide FicMask, Mask, KeepsFirstOfFour;
    FicMaskIsProfile();
    MaskTotals(FicBlocks());
    FirstTwo(FicBlocks());
  }

  lemma {:induction false} PuncturedTwo<T>(mask: seq<bool>, c: seq<T>, i: nat)
    requires i + 2 <= |mask| && i + 2 <= |c|
    ensures Punctured(mask, c, i + 2) == Punctured(mask, c, i) + (if mask[i] then [c[i]] else [])
                                         + (if mask[i + 1] then [c[i + 1]] else [])
    ensures Count(mask, i + 2) == Count(mask, i) + (if mask[i] then 1 else 0) + (if mask[i + 1] then 1 else 0)
  {
  }

  /** A group adds its first symbols. */
  lemma {:induction false} NextGroup<T>(c: seq<T>, q: nat)
    requires q < 774 && |c| >= CODED
    ensures Count(FicMask(), 4 * q + 4) == Count(FicMask(), 4 * q) + GroupKept(q) <= SENT
    ensures Punctured(FicMask(), c, 4 * q + 4)
         == Punctured(FicMask(), c, 4 * q) + c[4 * q..4 * q + GroupKept(q)]
  {
    hide FicMask, Count, Punctured;
    FicTotals();
    var mask, i := FicMask(), 4 * q;
    FicMaskAt(q, 0);
    FicMaskAt(q, 1);
    FicMaskAt(q, 2);
    FicMaskAt(q, 3);
    CountMono(mask, i + 4, CODED);
    PuncturedTwo(mask, c, i);
    PuncturedTwo(mask, c, i + 2);
    if GroupKept(q) == 3 {
      assert c[i..i + 3] == [c[i]] + [c[i + 1]] + [c[i + 2]];
    } else {
      assert c[i..i + 2] == [c[i]] + [c[i + 1]];
    }
  }

  /** The first q groups have been punctured into the first k cells. */
  ghost predicate Sent(obuf: seq<byte>, ibuf: seq<byte>, k: nat, q: nat)
    requires |obuf| >= SENT && |ibuf| >= CODED && q <= 774
  {
    k == Count(FicMask(), 4 * q) && k <= SENT && obuf[..k] == Punctured(FicMask(), ibuf, 4 * q)
  }

  /** A run of groups of the unrolled loops of `puncture`: n of every four symbols are copied. */
  method CopyGroups(obuf: array<byte>, ibuf: array<byte>, k: nat, q: nat, count: nat, n: nat) returns (k': nat)
    requires q + count <= 774 && forall g :: q <= g < q + count ==> n == GroupKept(g)
    requires ibuf.Length >= CODED && obuf.Length >= SENT && obuf != ibuf
    requires 2 <= n <= 3 && Sent(obuf[..], ibuf[..], k, q)
    modifies obuf
    ensures Sent(obuf[..], ibuf[..], k', q + count)
    ensures obuf[SENT..] == old(obuf[SENT..])
  {
    hide FicMask, Punctured, Count, Sent;
    k' := k;
    for j := 0 to count
      invariant Sent(obuf[..], ibuf[..], k', q + j)
      invariant obuf[SENT..] == old(obuf[SENT..])
    {
      var i := 4 * (q + j);
      RoomForGroup(obuf[..], ibuf[..], k', q + j);
      ghost var before := obuf[..];
      obuf[k' + 0] := ibuf[i + 0];
      obuf[k' + 1] := ibuf[i + 1];
      if n == 3 {
        obuf[k' + 2] := ibuf[i + 2];
      }
      assert obuf[..k'] == before[..k'] && obuf[k'..k' + n] == ibuf[i..i + n];
      SentGroup(before, obuf[..], ibuf[..], k', q + j);
      k' := k' + n;
    }
  }

  lemma {:induction false} RoomForGroup(obuf: seq<byte>, ibuf: seq<byte>, k: nat, q: nat)
    requires |obuf| >= SENT && |ibuf| >= CODED && q < 774 && Sent(obuf, ibuf, k, q)
    ensures k + GroupKept(q) <= SENT
  {
    hide FicMask, Punctured, Count;
    NextGroup(ibuf, q);
  }

  lemma {:induction false} SentGroup(before: seq<byte>, after: seq<byte>, ibuf: seq<byte>, k: nat, q: nat)
    requires |before| == |after| >= SENT && |ibuf| >= CODED && q < 774 && Sent(before, ibuf, k, q)
    requires k + GroupKept(q) <= SENT && after[..k] == before[..k]
    requires after[k..k + GroupKept(q)] == ibuf[4 * q..4 * q + GroupKept(q)]
    ensures Sent(after, ibuf, k + GroupKept(q), q + 1)
  {
    hide FicMask, Punctured, Count;
    NextGroup(ibuf, q);
    var n := GroupKept(q);
    assert after[..k + n] == after[..k] + after[k..k + n];
  }

  /** `puncture`: 3096 symbols in, 2304 out. */
  method Puncture(ibuf: array<byte>, obuf: array<byte>) returns (olen: nat)
    requires ibuf.Length >= CODED && obuf.Length >= SENT && obuf != ibuf
    modifies obuf
    ensures olen == SENT && obuf[..SENT] == Punctured(FicMask(), old(ibuf[..]), CODED)
    ensures obuf[SENT..] == old(obuf[SENT..])
  {
    hide FicMask, Count, Punctured;
    FicTotals();
    NoneSent(obuf[..], ibuf[..]);
    var k, i := 0, 0;
    while i < 21 * 128
      invariant 0 <= i <= 2688 && i % 32 == 0 && Sent(obuf[..], ibuf[..], k, i / 4)
      invariant obuf[SENT..] == old(obuf[SENT..])
    {
      k := CopyGroups(obuf, ibuf, k, i / 4, 8, 3);
      i := i + 32;
    }
    while i < 24 * 128
      invariant 2688 <= i <= 3072 && i % 32 == 0 && Sent(obuf[..], ibuf[..], k, i / 4)
      invariant obuf[SENT..] == old(obuf[SENT..])
    {
      k := CopyGroups(obuf, ibuf, k, i / 4, 7, 3);
      k := CopyGroups(obuf, ibuf, k, i / 4 + 7, 1, 2);
      i := i + 32;
    }
    k := CopyGroups(obuf, ibuf, k, 768, 6, 2);
    olen := k;
  }

  lemma {:induction false} NoneSent(obuf: seq<byte>, ibuf: seq<byte>)
    requires |obuf| >= SENT && |ibuf| >= CODED
    ensures Sent(obuf, ibuf, 0, 0)
  {
  }

  /** What `depuncture` makes of a received block: the value 8 marks an erasure. */
  function Marked(b: seq<byte>, i: nat): byte
    requires i < CODED && |b| >= SENT
  {
    FicTotals();
    CountMono(FicMask(), i + 1, CODED);
    if FicMask()[i] then b[Count(FicMask(), i)] else 8
  }

  ghost predicate Filling(obuf: seq<byte>, ibuf: seq<byte>, k: nat, q: nat)
    requires |obuf| >= CODED && |ibuf| >= SENT && q <= 774
  {
    k == Count(FicMask(), 4 * q) && forall i :: 0 <= i < 4 * q ==> obuf[i] == Marked(ibuf, i)
  }

  /** A run of groups of the unrolled loops of `depuncture`: n symbols, then 4 - n marks. */
  method FillGroups(obuf: array<byte>, ibuf: array<byte>, k: nat, q: nat, count: nat, n: nat) returns (k': nat)
    requires q + count <= 774 && forall g :: q <= g < q + count ==> n == GroupKept(g)
    requires ibuf.Length >= SENT && obuf.Length >= CODED && obuf != ibuf
    requires 2 <= n <= 3 && Filling(obuf[..], ibuf[..], k, q)
    modifies obuf
    ensures Filling(obuf[..], ibuf[..], k', q + count)
    ensures obuf[CODED..] == old(obuf[CODED..])
  {
    hide FicMask, Count, Marked;
    k' := k;
    for j := 0 to count
      invariant Filling(obuf[..], ibuf[..], k', q + j)
      invariant obuf[CODED..] == old(obuf[CODED..])
    {
      var i := 4 * (q + j);
      MarkedGroup(ibuf[..], q + j);
      obuf[i + 0] := ibuf[k' + 0];
      obuf[i + 1] := ibuf[k' + 1];
      obuf[i + 2] := if n == 3 then ibuf[k' + 2] else 8;
      obuf[i + 3] := 8;
      k' := k' + n;
    }
  }

  lemma {:induction false} MarkedGroup(b: seq<byte>, q: nat)
    requires q < 774 && |b| >= SENT
    ensures var k, i := Count(FicMask(), 4 * q), 4 * q;
            && Count(FicMask(), i + 4) == k + GroupKept(q) <= SENT
            && Marked(b, i) == b[k] && Marked(b, i + 1) == b[k + 1]
            && Marked(b, i + 2) == (if GroupKept(q) == 3 then b[k + 2] else 8) && Marked(b, i + 3) == 8
  {
    hide FicMask;
    FicTotals();
    var mask, i := FicMask(), 4 * q;
    FicMaskAt(q, 0);
    FicMaskAt(q, 1);
    FicMaskAt(q, 2);
    FicMaskAt(q, 3);
    CountMono(mask, i + 4, CODED);
    assert Count(mask, i + 1) == Count(mask, i) + 1 && Count(mask, i + 2) == Count(mask, i) + 2;
    assert Count(mask, i + 3) == Count(mask, i) + GroupKept(q);
  }

  /** `depuncture`: 2304 symbols in, 3096 out. */
  method DepunctureFic(ibuf: array<byte>, obuf: array<byte>) returns (olen: nat)
    requires ibuf.Length >= SENT && obuf.Length >= CODED && obuf != ibuf
    modifies obuf
    ensures olen == CODED && forall i :: 0 <= i < CODED ==> obuf[i] == Marked(old(ibuf[..]), i)
    ensures obuf[CODED..] == old(obuf[CODED..])
  {
    hide FicMask, Count, Marked;
    NoneFilled(obuf[..], ibuf[..]);
    var k, i := 0, 0;
    while i < 21 * 128
      invariant 0 <= i <= 2688 && i % 32 == 0 && Filling(obuf[..], ibuf[..], k, i / 4)
      invariant obuf[CODED..] == old(obuf[CODED..])
    {
      k := FillGroups(obuf, ibuf, k, i / 4, 8, 3);
      i := i + 32;
    }
    while i < 24 * 128
      invariant 2688 <= i <= 3072 && i % 32 == 0 && Filling(obuf[..], ibuf[..], k, i / 4)
      invariant obuf[CODED..] == old(obuf[CODED..])
    {
      k := FillGroups(obuf, ibuf, k, i / 4, 7, 3);
      k := FillGroups(obuf, ibuf, k, i / 4 + 7, 1, 2);
      i := i + 32;
    }
    k := FillGroups(obuf, ibuf, k, 768, 6, 2);
    var j := 6;
    olen := i + (j - 1) * 4 + 4;
  }

  lemma {:induction false} NoneFilled(obuf: seq<byte>, ibuf: seq<byte>)
    requires |obuf| >= CODED && |ibuf| >= SENT
    ensures Filling(obuf, ibuf, 0, 0)
  {
  }

  /** Puncturing what `depuncture` restored gives back the received block. */
  lemma {:induction false} PunctureUndoesDepuncture(b: seq<byte>, y: seq<byte>, n: nat)
    requires |b| >= SENT && |y| >= CODED && n <= CODED
    requires forall i :: 0 <= i < CODED ==> y[i] == Marked(b, i)
    ensures Count(FicMask(), n) <= SENT && Punctured(FicMask(), y, n) == b[..Count(FicMask(), n)]
    decreases n
  {
    hide FicMask;
    FicTotals();
    CountMono(FicMask(), n, CODED);
    if n > 0 {
      PunctureUndoesDepuncture(b, y, n - 1);
    }
  }
}
