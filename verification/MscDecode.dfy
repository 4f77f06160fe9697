/** The decoding of one logical frame of a sub-channel. */
module MscDecode {
  import opened Bits
  import opened ByteBits
  import opened ConvCode
  import opened Trellis
  import opened Viterbi
  import opened Tables
  import opened Depuncture
  import opened Scrambler

  /** A sub-channel whose profile asks for no more bits than its capacity units hold: the depuncturer
      stays inside the frame that it is given. */
  predicate Decodable(s: Subch) {
    WellProtected(s) && Count(SubchMask(s), |SubchMask(s)|) <= 64 * s.subchsz
  }

  /** Bytes of a decoded frame: one for every 32 symbols, the last 24 flush the encoder. */
  function FrameSize(s: Subch): nat
    requires WellProtected(s)
  {
    SymbolCount(SubchBlocks(s), |SubchBlocks(s)|) / 32
  }

  lemma {:induction false} WholeBlocks(bs: seq<Blk>, k: nat)
    requires k <= |bs|
    ensures SymbolCount(bs, k) % 32 == 0
    decreases k
  {
    if k > 0 {
      WholeBlocks(bs, k - 1);
      MoreBlocks(SymbolCount(bs, k - 1), bs[k - 1].l);
    }
  }

  lemma {:induction false} MoreBlocks(n: nat, l: nat)
    requires n % 32 == 0
    ensures (n + 128 * l) % 32 == 0
  {
  }

  lemma {:induction false} UsableBlocks(s: Subch)
    requires WellProtected(s)
    ensures Usable(SubchBlocks(s))
  {
    hide UepTable;
    if !s.eepprot {
      UepRowFitsAt(s.uepIndx);
    }
  }

  /** The mask of a frame: 32 symbols a byte and 24 more. */
  lemma {:induction false} MaskShape(s: Subch)
    requires WellProtected(s)
    ensures |SubchMask(s)| == 32 * FrameSize(s) + 24 && KeepsFirstOfFour(SubchMask(s))
  {
    hide Mask, SubchBlocks, Count, KeepsFirstOfFour;
    var bs := SubchBlocks(s);
    UsableBlocks(s);
    MaskTotals(bs);
    WholeBlocks(bs, |bs|);
  }

  /** A mask that keeps every first symbol keeps at least a quarter. */
  lemma {:induction false} KeepsQuarter(mask: seq<bool>, q: nat)
    requires KeepsFirstOfFour(mask) && 4 * q <= |mask|
    ensures q <= Count(mask, 4 * q)
    decreases q
  {
    if q > 0 {
      KeepsQuarter(mask, q - 1);
      assert mask[4 * (q - 1)];
      CountMono(mask, 4 * (q - 1) + 1, 4 * q);
    }
  }

  /** So the depunctured frame fits a buffer of 4 * 64 cells per capacity unit. */
  lemma {:induction false} FrameFits(s: Subch)
    requires Decodable(s)
    ensures |SubchMask(s)| == 32 * FrameSize(s) + 24 <= 4 * (64 * s.subchsz)
  {
    hide Mask, Count, SubchBlocks, SubchMask, KeepsFirstOfFour, FrameSize, WellProtected;
    MaskShape(s);
    KeepsQuarter(SubchMask(s), 8 * FrameSize(s) + 6);
  }

  /** The symbols for the decoder. */
  function Depunctured(s: Subch, lf: seq<byte>): (y: seq<byte>)
    requires Decodable(s) && |lf| == 64 * s.subchsz
    ensures |y| == 32 * FrameSize(s) + 24
  {
    hide Mask, Count, SubchBlocks, SubchMask, KeepsFirstOfFour, FrameSize, WellProtected;
    MaskShape(s);
    Filled(SubchMask(s), lf)
  }

  /** The bits of a logical frame. */
  function FrameBits(m: Mettab, s: Subch, lf: seq<byte>): (u: seq<bit>)
    requires Decodable(s) && |lf| == 64 * s.subchsz
    ensures |u| == 8 * FrameSize(s)
  {
    hide Depunctured, Decoded, Received, Dispersed, SubchBlocks;
    Dispersed(Decoded(Received(m, Depunctured(s, lf)), 8 * FrameSize(s)))
  }

  /** The bytes of a logical frame. */
  function FrameBytes(m: Mettab, s: Subch, lf: seq<byte>): (data: seq<byte>)
    requires Decodable(s) && |lf| == 64 * s.subchsz
    ensures |data| == FrameSize(s)
  {
    hide *;
    var u := FrameBits(m, s, lf);
    WholeBytes(u, FrameSize(s));
    Packed(true, u)
  }

  lemma {:induction false} WholeBytes(u: seq<bit>, n: nat)
    requires |u| == 8 * n
    ensures |u| % 8 == 0 && |u| / 8 == n
  {
  }

  lemma {:induction false} LongerAgrees(m: Mettab, y: seq<byte>, z: seq<byte>, n: nat)
    requires y <= z && |y| == 4 * n
    ensures AgreeBelow(Received(m, y), Received(m, z), n)
  {
    hide Sym;
    forall i: nat, r: nat | i < n ensures Received(m, y)(i, r) == Received(m, z)(i, r) {
      assert y[4 * i] == z[4 * i] && y[4 * i + 1] == z[4 * i + 1];
      assert y[4 * i + 2] == z[4 * i + 2] && y[4 * i + 3] == z[4 * i + 3];
    }
  }

  /** Depuncture into dpbuf. */
  method DepunctureFrame(dpbuf: array<byte>, lf: array<byte>, s: Subch) returns (len: nat)
    requires Decodable(s) && lf.Length == 64 * s.subchsz && dpbuf.Length == 4 * lf.Length && dpbuf != lf
    modifies dpbuf
    ensures len == 32 * FrameSize(s) + 24 <= dpbuf.Length && dpbuf[..len] == Depunctured(s, old(lf[..]))
  {
    hide Mask, Count, SubchBlocks, SubchMask, KeepsFirstOfFour, Filled, FrameSize;
    FrameFits(s);
    if s.eepprot {
      len := EepDepuncture(dpbuf, lf, s);
    } else {
      len := UepDepuncture(dpbuf, lf, s);
    }
  }

  /** The decoder reads no symbol after the first len. */
  method DecodeBits(obuf: array<byte>, dpbuf: array<byte>, len: nat, m: Mettab, longBits: wordsize) returns (bits: nat)
    requires 24 <= len <= dpbuf.Length && len % 4 == 0 && obuf.Length >= len / 4 && obuf != dpbuf
    modifies obuf
    ensures bits == len / 4 - 6 && obuf[..bits] == Decoded(Received(m, dpbuf[..len]), bits)
  {
    hide Decoded, Received, Best;
    bits := len / N - (K - 1);
    var metric := KViterbi(obuf, dpbuf, bits, m, 0, 0, longBits);
    ghost var y, z := dpbuf[..len], dpbuf[..];
    LongerAgrees(m, y, z, bits + 6);
    DecodedLocal(Received(m, y), Received(m, z), bits);
  }

  method DisperseBits(obuf: array<byte>, dpbuf: array<byte>, bits: nat, ghost u: seq<bit>)
    requires bits <= obuf.Length && bits <= dpbuf.Length && obuf != dpbuf && obuf[..bits] == u
    modifies dpbuf
    ensures dpbuf[..bits] == Dispersed(u)
  {
    hide ScrambledAt, Dispersed;
    Scramble(obuf, dpbuf, bits);
    DispersedPrefix(obuf[..], dpbuf[..], u);
  }

  /** `msc_decode` after the deinterleaving. */
  method DecodeFrame(lf: array<byte>, s: Subch, m: Mettab, longBits: wordsize) returns (obuf: array<byte>, obytes: nat)
    requires Decodable(s) && lf.Length == 64 * s.subchsz
    ensures fresh(obuf) && obytes == FrameSize(s) <= obuf.Length
    ensures obuf[..obytes] == FrameBytes(m, s, lf[..])
  {
    hide Depunctured, Decoded, Received, Dispersed, PackedByte, SubchMask, Count, FrameSize, Passes;
    var dpbuf := new byte[4 * lf.Length](_ => 0);
    obuf := new byte[4 * lf.Length](_ => 0);
    var len := DepunctureFrame(dpbuf, lf, s);
    var bits := DecodeBits(obuf, dpbuf, len, m, longBits);
    DisperseBits(obuf, dpbuf, bits, Decoded(Received(m, Depunctured(s, lf[..])), bits));
    WholeBytes(FrameBits(m, s, lf[..]), FrameSize(s));
    WholePasses(FrameSize(s), 8);
    obytes := BitToByte(true, dpbuf, bits, obuf);
  }
}
