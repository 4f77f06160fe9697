/** Depuncturing by a mask, and the three places where the receiver does it: the MSC with
    unequal and with equal error protection, and the FIC. */
module Depuncture {
  import opened Bits
  import opened Puncturing
  import opened Tables

  /** Symbols that a mask keeps among the first n. */
  function Count(mask: seq<bool>, n: nat): (c: nat)
    requires n <= |mask|
    ensures c <= n
  {
    if n == 0 then 0 else Count(mask, n - 1) + (if mask[n - 1] then 1 else 0)
  }

  lemma {:induction false} CountMono(mask: seq<bool>, a: nat, b: nat)
    requires a <= b <= |mask|
    ensures Count(mask, a) <= Count(mask, b)
    decreases b
  {
    if a < b {
      CountMono(mask, a, b - 1);
    }
  }

  /** What the sender transmits of a code word. */
  function Punctured<T>(mask: seq<bool>, c: seq<T>, n: nat): (b: seq<T>)
    requires n <= |mask| && n <= |c|
    ensures |b| == Count(mask, n)
  {
    if n == 0 then [] else Punctured(mask, c, n - 1) + (if mask[n - 1] then [c[n - 1]] else [])
  }

  lemma {:induction false} PuncturedAt<T>(mask: seq<bool>, c: seq<T>, n: nat, i: nat)
    requires i < n <= |mask| && n <= |c| && mask[i]
    ensures Count(mask, i) < Count(mask, n) && Punctured(mask, c, n)[Count(mask, i)] == c[i]
    decreases n
  {
    if i < n - 1 {
      PuncturedAt(mask, c, n - 1, i);
    }
  }

  /** Bits are punctured like the bytes that hold them. */
  lemma {:induction false} PuncturedBits(mask: seq<bool>, c: seq<bit>, n: nat)
    requires n <= |mask| && n <= |c|
    ensures Punctured<byte>(mask, c, n) == Punctured<bit>(mask, c, n)
    decreases n
  {
    if n > 0 {
      PuncturedBits(mask, c, n - 1);
    }
  }

  /** Soft symbol of a received bit: 127 + 2 * b, in a byte. */
  function SoftBit(b: byte): byte {
    (127 + 2 * b) % 256
  }

  /** The full code word: received symbols where the mask keeps them, erasures elsewhere. */
  function Filled(mask: seq<bool>, b: seq<byte>): (y: seq<byte>)
    requires Count(mask, |mask|) <= |b|
    ensures |y| == |mask|
  {
    seq(|mask|, i requires 0 <= i < |mask| => FilledAt(mask, b, i))
  }

  function FilledAt(mask: seq<bool>, b: seq<byte>, i: nat): byte
    requires i < |mask| && Count(mask, |mask|) <= |b|
  {
    CountMono(mask, i + 1, |mask|);
    if mask[i] then SoftBit(b[Count(mask, i)]) else 128
  }

  /** The mask of one block: the first n entries of the periodic vector pi. */
  function Block(pi: int, n: nat): (mask: seq<bool>)
    ensures |mask| == n
  {
    seq(n, i requires 0 <= i < n => Kept(pi, i))
  }

  lemma {:induction false} CountBlock(a: seq<bool>, pi: int, n: nat, k: nat)
    requires k <= n
    ensures Count(a + Block(pi, n), |a| + k) == Count(a, |a|) + CountKept(pi, k)
    decreases k
  {
    hide Kept;
    if k == 0 {
      CountPrefix(a, Block(pi, n), |a|);
    } else {
      CountBlock(a, pi, n, k - 1);
    }
  }

  lemma {:induction false} CountPrefix(a: seq<bool>, b: seq<bool>, n: nat)
    requires n <= |a|
    ensures Count(a + b, n) == Count(a, n)
    decreases n
  {
    if n > 0 {
      CountPrefix(a, b, n - 1);
    }
  }

  /** One loop of a depuncturer: i runs over a block, j over the input, k over the output. */
  method FillBlock(obuf: array<byte>, inbuf: array<byte>, pi: int, n: nat, ghost mask: seq<bool>, j: nat, k: nat)
    returns (j': nat, k': nat)
    requires (n > 0 ==> 0 <= pi < 24) && obuf != inbuf && k + n <= |mask| <= obuf.Length
    requires Count(mask, |mask|) <= inbuf.Length && j == Count(mask, k)
    requires forall i :: 0 <= i < n ==> mask[k + i] == Kept(pi, i)
    requires forall i :: 0 <= i < k ==> obuf[i] == FilledAt(mask, inbuf[..], i)
    modifies obuf
    ensures k' == k + n && j' == Count(mask, k')
    ensures forall i :: 0 <= i < k' ==> obuf[i] == FilledAt(mask, inbuf[..], i)
    ensures forall i :: k' <= i < obuf.Length ==> obuf[i] == old(obuf[i])
  {
    hide Kept, Vector;
    j', k' := j, k;
    if n == 0 {
      return;
    }
    var row := Pvec(pi);
    for i := 0 to n
      invariant k' == k + i && j' == Count(mask, k')
      invariant forall e :: 0 <= e < k' ==> obuf[e] == FilledAt(mask, inbuf[..], e)
      invariant forall e :: k' <= e < obuf.Length ==> obuf[e] == old(obuf[e])
    {
      VectorIsMask(pi, i);
      CountMono(mask, k' + 1, |mask|);
      assert mask[k'] == Kept(pi, i);
      if row[i % 32] == 1 {
        var b: int := inbuf[j'];
        obuf[k'] := (127 + 2 * b) % 256;
        j' := j' + 1;
      } else {
        obuf[k'] := 128;
      }
      k' := k' + 1;
    }
  }

  predicate KeepsFirstOfFour(mask: seq<bool>) {
    |mask| % 4 == 0 && KeepsFirst(mask)
  }

  lemma {:induction false} KeepsFirstAppend(a: seq<bool>, pi: int, n: nat)
    requires KeepsFirstOfFour(a) && n % 4 == 0
    ensures KeepsFirstOfFour(a + Block(pi, n))
  {
    forall i | 0 <= i < |a| + n && i % 4 == 0 ensures (a + Block(pi, n))[i] {
      if i >= |a| {
        assert (i - |a|) % 4 == 0;
        assert Kept(pi, i - |a|);
      }
    }
  }

  /** A block: n symbols (n in units of 128) punctured by vector pi. */
  datatype Blk = Blk(l: nat, pi: int)

  predicate Usable(bs: seq<Blk>) {
    forall i :: 0 <= i < |bs| && bs[i].l > 0 ==> 0 <= bs[i].pi < 24
  }

  /** The mask of the first k blocks. */
  function MaskOf(bs: seq<Blk>, k: nat): seq<bool>
    requires k <= |bs|
  {
    if k == 0 then [] else MaskOf(bs, k - 1) + Block(bs[k - 1].pi, 128 * bs[k - 1].l)
  }

  function SymbolCount(bs: seq<Blk>, k: nat): nat
    requires k <= |bs|
  {
    if k == 0 then 0 else SymbolCount(bs, k - 1) + 128 * bs[k - 1].l
  }

  function KeptSum(bs: seq<Blk>, k: nat): int
    requires k <= |bs|
  {
    if k == 0 then 0 else KeptSum(bs, k - 1) + KeptBy(bs[k - 1].l, bs[k - 1].pi)
  }

  lemma {:induction false} MaskCounts(bs: seq<Blk>, k: nat)
    requires k <= |bs| && Usable(bs)
    ensures var mask := MaskOf(bs, k);
            |mask| == SymbolCount(bs, k) && Count(mask, |mask|) == KeptSum(bs, k) && KeepsFirstOfFour(mask)
    decreases k
  {
    hide Block, KeepsFirstOfFour, KeptBy, Count;
    NoneCounted();
    if k > 0 {
      MaskCounts(bs, k - 1);
      BlockCounts(MaskOf(bs, k - 1), bs[k - 1].pi, bs[k - 1].l);
      KeepsFirstAppend(MaskOf(bs, k - 1), bs[k - 1].pi, 128 * bs[k - 1].l);
    } else {
      KeepsFirstNone();
    }
  }

  lemma NoneCounted()
    ensures Count([], 0) == 0
  {
  }

  lemma KeepsFirstNone()
    ensures KeepsFirstOfFour([])
  {
  }

  lemma {:induction false} BlockCounts(a: seq<bool>, pi: int, l: nat)
    requires l > 0 ==> 0 <= pi < 24
    ensures var b := a + Block(pi, 128 * l);
            |b| == |a| + 128 * l && Count(b, |b|) == Count(a, |a|) + KeptBy(l, pi)
  {
    hide Kept;
    CountBlock(a, pi, 128 * l, 128 * l);
    if l > 0 {
      CountPeriods(pi, 4 * l);
      assert 32 * (4 * l) == 128 * l;
    }
  }

  /** The mask of a whole code word: the blocks, then 24 symbols at rate 8/16. */
  function Mask(bs: seq<Blk>): seq<bool> {
    MaskOf(bs, |bs|) + Block(7, 24)
  }

  lemma {:induction false} MaskTotals(bs: seq<Blk>)
    requires Usable(bs)
    ensures var mask := Mask(bs);
            && |mask| == SymbolCount(bs, |bs|) + 24 && KeepsFirstOfFour(mask)
            && Count(mask, |mask|) == KeptSum(bs, |bs|) + 12
  {
    hide Block, KeepsFirstOfFour;
    var a := MaskOf(bs, |bs|);
    MaskCounts(bs, |bs|);
    CountBlock(a, 7, 24, 24);
    BlockLengths(7, 24);
    CountTail();
    KeepsFirstAppend(a, 7, 24);
  }

  lemma {:induction false} BlockLengths(pi: int, n: nat)
    ensures |Block(pi, n)| == n
  {
  }

  lemma {:induction false} MaskPart(bs: seq<Blk>, k: nat, i: nat)
    requires k < |bs| && i < 128 * bs[k].l
    ensures SymbolCount(bs, k) == |MaskOf(bs, k)|
    ensures SymbolCount(bs, k) + i < |Mask(bs)| && Mask(bs)[SymbolCount(bs, k) + i] == Kept(bs[k].pi, i)
  {
    hide Kept;
    MaskPrefix(bs, k + 1, |bs|);
    SymbolsLength(bs, k);
    assert MaskOf(bs, k + 1)[SymbolCount(bs, k) + i] == Kept(bs[k].pi, i);
  }

  lemma {:induction false} SymbolsLength(bs: seq<Blk>, k: nat)
    requires k <= |bs|
    ensures |MaskOf(bs, k)| == SymbolCount(bs, k)
    decreases k
  {
    if k > 0 {
      SymbolsLength(bs, k - 1);
    }
  }

  lemma {:induction false} MaskPrefix(bs: seq<Blk>, j: nat, k: nat)
    requires j <= k <= |bs|
    ensures MaskOf(bs, j) <= MaskOf(bs, k)
    decreases k
  {
    if j < k {
      MaskPrefix(bs, j, k - 1);
    }
  }

  /** The two loops that both depuncturers consist of: the blocks, then the last 24 symbols. */
  method FillBlocks(obuf: array<byte>, inbuf: array<byte>, bs: seq<Blk>) returns (len: nat)
    requires Usable(bs) && obuf != inbuf
    requires |Mask(bs)| <= obuf.Length && Count(Mask(bs), |Mask(bs)|) <= inbuf.Length
    modifies obuf
    ensures len == |Mask(bs)|
    ensures obuf[..len] == Filled(Mask(bs), old(inbuf[..]))
    ensures obuf[len..] == old(obuf[len..])
  {
    hide Kept, Mask, Block;
    ghost var mask := Mask(bs);
    var j, k := 0, 0;
    MaskTotals(bs);
    for indx := 0 to |bs|
      invariant k == SymbolCount(bs, indx) <= |mask| && j == Count(mask, k)
      invariant forall i :: 0 <= i < k ==> obuf[i] == FilledAt(mask, inbuf[..], i)
      invariant forall i :: k <= i < obuf.Length ==> obuf[i] == old(obuf[i])
    {
      SymbolsMono(bs, indx + 1, |bs|);
      forall i | 0 <= i < 128 * bs[indx].l ensures mask[k + i] == Kept(bs[indx].pi, i) {
        MaskPart(bs, indx, i);
      }
      j, k := FillBlock(obuf, inbuf, bs[indx].pi, 128 * bs[indx].l, mask, j, k);
    }
    MaskEnd(bs);
    j, k := FillBlock(obuf, inbuf, 7, 24, mask, j, k);
    len := k;
    assert forall i :: 0 <= i < len ==> Filled(mask, inbuf[..])[i] == FilledAt(mask, inbuf[..], i);
  }

  lemma {:induction false} MaskEnd(bs: seq<Blk>)
    ensures |Mask(bs)| == SymbolCount(bs, |bs|) + 24
    ensures forall i :: 0 <= i < 24 ==> Mask(bs)[SymbolCount(bs, |bs|) + i] == Kept(7, i)
  {
    hide Kept;
    SymbolsLength(bs, |bs|);
  }

  lemma {:induction false} SymbolsMono(bs: seq<Blk>, j: nat, k: nat)
    requires j <= k <= |bs|
    ensures SymbolCount(bs, j) <= SymbolCount(bs, k)
    decreases k
  {
    if j < k {
      SymbolsMono(bs, j, k - 1);
    }
  }

  function UepBlocks(p: UepProf): seq<Blk> {
    [Blk(p.l0, p.pi0), Blk(p.l1, p.pi1), Blk(p.l2, p.pi2), Blk(p.l3, p.pi3)]
  }

  function BlockLength(mul: int, offset: int, n: nat): nat {
    if mul * n + offset <= 0 then 0 else mul * n + offset
  }

  function EepBlocks(p: EepProf, n: nat): seq<Blk> {
    [Blk(BlockLength(p.mul0, p.offset0, n), p.pi0), Blk(BlockLength(p.mul1, p.offset1, n), p.pi1)]
  }

  /** The profile of a sub-channel with equal error protection. */
  function EepProfile(s: Subch): EepProf
    requires 0 <= s.protlvl < 8
  {
    if s.bitrate == 8 && s.protlvl == 1 then Eep2a8kbps() else EepTable(s.protlvl)
  }

  /** The blocks and the mask that go with a sub-channel. */
  function SubchBlocks(s: Subch): seq<Blk>
    requires WellProtected(s)
  {
    if s.eepprot then EepBlocks(EepProfile(s), s.subchsz / EepProfile(s).sizemul)
    else UepBlocks(UepTable(s.uepIndx))
  }

  function SubchMask(s: Subch): seq<bool>
    requires WellProtected(s)
  {
    Mask(SubchBlocks(s))
  }

  predicate WellProtected(s: Subch) {
    s.subchsz >= 0 && (if s.eepprot then 0 <= s.protlvl < 8 else 0 <= s.uepIndx < 64)
  }

  method UepDepuncture(obuf: array<byte>, inbuf: array<byte>, s: Subch) returns (len: nat)
    requires WellProtected(s) && !s.eepprot && obuf != inbuf
    requires |SubchMask(s)| <= obuf.Length && Count(SubchMask(s), |SubchMask(s)|) <= inbuf.Length
    modifies obuf
    ensures len == |SubchMask(s)| && obuf[..len] == Filled(SubchMask(s), old(inbuf[..]))
    ensures obuf[len..] == old(obuf[len..])
  {
    hide Mask, UepTable;
    var p := UepTable(s.uepIndx);
    UepRowFitsAt(s.uepIndx);
    len := FillBlocks(obuf, inbuf, UepBlocks(p));
  }

  method EepDepuncture(obuf: array<byte>, inbuf: array<byte>, s: Subch) returns (len: nat)
    requires WellProtected(s) && s.eepprot && obuf != inbuf
    requires |SubchMask(s)| <= obuf.Length && Count(SubchMask(s), |SubchMask(s)|) <= inbuf.Length
    modifies obuf
    ensures len == |SubchMask(s)| && obuf[..len] == Filled(SubchMask(s), old(inbuf[..]))
    ensures obuf[len..] == old(obuf[len..])
  {
    hide Mask;
    var p := EepTable(s.protlvl);
    if s.bitrate == 8 && s.protlvl == 1 {
      p := Eep2a8kbps();
    }
    len := FillBlocks(obuf, inbuf, EepBlocks(p, s.subchsz / p.sizemul));
  }

  /** Every row of the table: the block lengths fill the code word of a 24 ms frame, the mask
      keeps what the sub-channel carries less the padding, and never drops a first symbol. */
  lemma {:induction false} UepConservation(i: nat)
    requires i < 64
    ensures var p, mask := UepTable(i), Mask(UepBlocks(UepTable(i)));
            && |mask| == 96 * p.bitrate + 24 && KeepsFirstOfFour(mask)
            && Count(mask, |mask|) == 64 * p.subchsz - p.padbits
  {
    hide Mask, UepTable, KeptBy, KeepsFirstOfFour;
    var p := UepTable(i);
    var bs := UepBlocks(p);
    UepRowFitsAt(i);
    MaskTotals(bs);
    FirstTwo(bs);
  }

  lemma {:induction false} EepTotals(p: EepProf, n: nat)
    requires p.pi0 < 24 && p.pi1 < 24
    ensures var l0, l1 := BlockLength(p.mul0, p.offset0, n), BlockLength(p.mul1, p.offset1, n);
            var mask := Mask(EepBlocks(p, n));
            && |mask| == 128 * (l0 + l1) + 24 && KeepsFirstOfFour(mask)
            && Count(mask, |mask|) == KeptBy(l0, p.pi0) + KeptBy(l1, p.pi1) + 12
  {
    hide Mask, KeptBy, KeepsFirstOfFour, BlockLength;
    MaskTotals(EepBlocks(p, n));
    FirstTwo(EepBlocks(p, n));
  }

  lemma {:induction false} FirstTwo(bs: seq<Blk>)
    requires |bs| >= 2
    ensures SymbolCount(bs, 2) == 128 * (bs[0].l + bs[1].l)
    ensures KeptSum(bs, 2) == KeptBy(bs[0].l, bs[0].pi) + KeptBy(bs[1].l, bs[1].pi)
  {
    hide KeptBy;
    assert SymbolCount(bs, 0) == 0 && KeptSum(bs, 0) == 0;
    assert SymbolCount(bs, 1) == SymbolCount(bs, 0) + 128 * bs[0].l;
    assert KeptSum(bs, 1) == KeptSum(bs, 0) + KeptBy(bs[0].l, bs[0].pi);
    assert SymbolCount(bs, 2) == SymbolCount(bs, 1) + 128 * bs[1].l;
    assert KeptSum(bs, 2) == KeptSum(bs, 1) + KeptBy(bs[1].l, bs[1].pi);
  }

  /** Equal error protection, for every number n >= 1 of units: the mask fills the code word of
      the bit rate, and it keeps what the sub-channel carries exactly when the profile is not
      level 2-A at 8 kbit/s, whose vectors keep 336 of 512. */
  lemma {:induction false} EepConservation(protlvl: nat, n: nat)
    requires protlvl < 8 && n >= 1
    ensures var p := EepTable(protlvl);
            var mask := Mask(EepBlocks(if protlvl == 1 && n == 1 then Eep2a8kbps() else p, n));
            && |mask| == 96 * (n * p.ratemul) + 24 && KeepsFirstOfFour(mask)
            && (Count(mask, |mask|) == 64 * (n * p.sizemul) <==> !(protlvl == 1 && n == 1))
            && (protlvl == 1 && n == 1 ==> Count(mask, |mask|) == 336)
  {
    hide Mask, Count, KeepsFirstOfFour;
    EepTotals(if protlvl == 1 && n == 1 then Eep2a8kbps() else EepTable(protlvl), n);
  }

  /** The vectors that would make level 2-A at 8 kbit/s fit its 512 bits. */
  lemma Eep2aVectorsThatFit()
    ensures var mask := Mask([Blk(5, 12), Blk(1, 11)]);
            |mask| == 96 * 8 + 24 && KeepsFirstOfFour(mask) && Count(mask, |mask|) == 64 * 8
  {
    hide Mask, KeepsFirstOfFour;
    var bs := [Blk(5, 12), Blk(1, 11)];
    MaskTotals(bs);
    FirstTwo(bs);
  }
}
