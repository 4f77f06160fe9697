/** One OFDM symbol: from its 3072 bits to the 384 bytes that the receiver hands over, and back. */
module Symbols {
  import opened Bits
  import opened ByteBits
  import opened Interleaver

  const SYMBOL_BITS := 3072
  const SYMBOL_BYTES := 384

  /** The length of a packet from the receiver. */
  const PACKET_BYTES := 524

  /** Cell of the interleaved symbol that bit i of the block goes to. */
  function Placed(i: nat): (k: nat)
    requires i < SYMBOL_BITS
    ensures k < SYMBOL_BITS
  {
    if i < CARRIERS then 2 * Perm(i) else 2 * Perm(i - CARRIERS) + 1
  }

  lemma {:induction false} PlacedHolds(p: seq<byte>, q: seq<byte>, y: seq<byte>, i: nat)
    requires |p| == |q| == |y| == SYMBOL_BITS && Paired(p, q) && Moved(q, y) && i < SYMBOL_BITS
    ensures y[Placed(i)] == p[i]
  {
    hide Perm;
    var n := if i < CARRIERS then i else i - CARRIERS;
    assert q[2 * n] == p[n] && q[2 * n + 1] == p[n + CARRIERS];
    assert y[2 * Perm(n)] == q[2 * n] && y[2 * Perm(n) + 1] == q[2 * n + 1];
  }

  lemma {:induction false} SwapBound(i: nat)
    requires i < SYMBOL_BITS
    ensures Swapped16(i) < SYMBOL_BITS
  {
  }

  /** Position, in the bytes of a symbol, of bit i of its block. */
  function Source(i: nat): (k: nat)
    requires i < SYMBOL_BITS
    ensures k < SYMBOL_BITS
  {
    SwapBound(Placed(i));
    Swapped16(Placed(i))
  }

  /** The block that a symbol carries. */
  function Demodulated(sym: seq<byte>): (p: seq<bit>)
    requires |sym| == SYMBOL_BYTES
    ensures |p| == SYMBOL_BITS
  {
    seq(SYMBOL_BITS, i requires 0 <= i < SYMBOL_BITS => LsbBits(sym)[Source(i)])
  }

  /** What the receiver's chain computes, stage by stage: bits, swapped, deinterleaved, demapped. */
  lemma {:induction false} ChainIsDemodulated(sym: seq<byte>, b: seq<byte>, c: seq<byte>, d: seq<byte>, p: seq<byte>)
    requires |sym| == SYMBOL_BYTES && |b| == |c| == |d| == |p| == SYMBOL_BITS
    requires b == LsbBits(sym) && Moved(d, c) && Paired(p, d)
    requires forall i :: 0 <= i < SYMBOL_BITS ==> Swapped16(i) < SYMBOL_BITS && c[i] == b[Swapped16(i)]
    ensures p == Demodulated(sym)
  {
    hide Placed, LsbBits, Moved, Paired, Swapped16;
    forall i | 0 <= i < SYMBOL_BITS ensures p[i] == Demodulated(sym)[i] {
      PlacedHolds(p, d, c, i);
    }
  }

  /** `freq_deinterleave`, and the same four stages of the FIC decoder. */
  method Demodulate(sym: array<byte>, start: nat, table49: seq<int>, obuf: array<byte>)
    requires start + SYMBOL_BYTES <= sym.Length && obuf.Length == SYMBOL_BITS && table49 == Table49() && sym != obuf
    modifies obuf
    ensures obuf[..] == Demodulated(sym[start..start + SYMBOL_BYTES])
  {
    hide BitsOf, Moved, Paired, Swapped16, Table49, Demodulated, Passes;
    var cbuf := new byte[SYMBOL_BYTES](_ => 0);
    for i := 0 to SYMBOL_BYTES
      modifies cbuf
      invariant forall k :: 0 <= k < i ==> cbuf[k] == sym[start + k]
    {
      cbuf[i] := sym[start + i];
    }
    ghost var data := sym[start..start + SYMBOL_BYTES];
    assert cbuf[..SYMBOL_BYTES] == data;
    var bbuf := new byte[SYMBOL_BITS](_ => 0);
    var dbuf := new byte[SYMBOL_BITS](_ => 0);
    var fbuf := new byte[SYMBOL_BITS](_ => 0);
    var len := ByteToBit(false, cbuf, SYMBOL_BYTES, bbuf);
    ghost var b := bbuf[..];
    WholePasses(192, 16);
    Bitswap16(bbuf, dbuf, len);
    ghost var c := dbuf[..];
    FrequencyDeinterleaver(dbuf, fbuf, table49);
    ghost var d := fbuf[..];
    QpskSymbolDemapper(fbuf, obuf);
    BitsOfLittle(data);
    ChainIsDemodulated(data, b, c, d, obuf[..]);
  }

  lemma {:induction false} BitsOfLittle(data: seq<byte>)
    ensures BitsOf(false, data) == LsbBits(data)
  {
  }

  /** The sender's chain: sym carries the block p. */
  ghost predicate SentAs(p: seq<bit>, q: seq<byte>, y: seq<byte>, z: seq<byte>, sym: seq<byte>) {
    hide Moved, Paired, Packed, Swapped16;
    && |p| == |q| == |y| == |z| == SYMBOL_BITS && |sym| == SYMBOL_BYTES
    && Paired(p, q) && Moved(q, y) && sym == Packed(false, z)
    && forall i :: 0 <= i < SYMBOL_BITS ==> Swapped16(i) < SYMBOL_BITS && z[i] == y[Swapped16(i)]
  }

  /** One symbol on the air, and the buffers of its modulation. */
  datatype Sending = Sending(q: seq<byte>, y: seq<byte>, z: seq<byte>, sym: seq<byte>)

  ghost predicate Carries(s: Sending, p: seq<bit>) {
    SentAs(p, s.q, s.y, s.z, s.sym)
  }

  /** A packet from the receiver: it begins with a marker, the number of the symbol in its frame and the number
      of the frame, and the bytes of the symbol start at byte 12. */
  predicate PacketWith(buf: seq<byte>, number: nat, frame: nat, sym: seq<byte>) {
    && |buf| == PACKET_BYTES && buf[0] == 0x0c && buf[1] == 0x62 && buf[2] == number && buf[3] == frame
    && |sym| == SYMBOL_BYTES && buf[12..396] == sym
  }

  predicate WholePackets(ps: seq<seq<byte>>) {
    forall k :: 0 <= k < |ps| ==> |ps[k]| == PACKET_BYTES
  }

  /** The receiver recovers the block that was sent. */
  lemma {:induction false} SymbolRoundTrip(p: seq<bit>, q: seq<byte>, y: seq<byte>, z: seq<byte>, sym: seq<byte>)
    requires SentAs(p, q, y, z, sym)
    ensures Demodulated(sym) == p
  {
    hide Placed, Packed, BitsOf, LsbBits, Moved, Paired, Swapped16;
    SentBits(p, q, y, z);
    BitsUndoPack(false, z);
    BitsOfLittle(sym);
    forall i | 0 <= i < SYMBOL_BITS ensures Demodulated(sym)[i] == p[i] {
      PlacedHolds(p, q, y, i);
      SwapTwice(Placed(i));
      assert z[Source(i)] == y[Swapped16(Source(i))];
    }
  }

  /** Cell c of a symbol: sixteen cells are one word of two bytes, the lower byte first, that begins with its
      highest digit. */
  function CellDigit(sym: seq<byte>, c: nat): bit
    requires |sym| == SYMBOL_BYTES && c < SYMBOL_BITS
  {
    BitAt(sym[2 * (c / 16) + 1 - c % 16 / 8], 7 - c % 8)
  }

  lemma {:induction false} DigitOfCell(sym: seq<byte>, c: nat)
    requires |sym| == SYMBOL_BYTES && c < SYMBOL_BITS
    ensures Swapped16(c) < SYMBOL_BITS && LsbBits(sym)[Swapped16(c)] == CellDigit(sym, c)
  {
    hide BitAt;
    var j := Swapped16(c);
    assert j / 8 == 2 * (c / 16) + 1 - c % 16 / 8 && j % 8 == 7 - c % 8;
  }

  /** The two halves of the block are the real and the imaginary parts of the carriers, in the order of the
      table. */
  lemma {:induction false} BitOfSymbol(p: seq<bit>, q: seq<byte>, y: seq<byte>, z: seq<byte>, sym: seq<byte>,
                                       n: nat, part: nat)
    requires n < CARRIERS && part < 2 && SentAs(p, q, y, z, sym)
    ensures CellDigit(sym, 2 * Perm(n) + part) == p[n + CARRIERS * part]
  {
    hide Perm, Packed, BitsOf, LsbBits, Moved, Paired, Swapped16, CellDigit;
    var c, i := 2 * Perm(n) + part, n + CARRIERS * part;
    SentBits(p, q, y, z);
    BitsUndoPack(false, z);
    BitsOfLittle(sym);
    PlacedHolds(p, q, y, i);
    SwapTwice(c);
    DigitOfCell(sym, c);
    assert z[Source(i)] == y[Swapped16(Source(i))];
  }

  /** The sender only permutes, so that all its buffers hold bits. */
  lemma {:induction false} SentBits(p: seq<bit>, q: seq<byte>, y: seq<byte>, z: seq<byte>)
    requires |p| == |q| == |y| == |z| == SYMBOL_BITS && Paired(p, q) && Moved(q, y)
    requires forall i :: 0 <= i < SYMBOL_BITS ==> Swapped16(i) < SYMBOL_BITS && z[i] == y[Swapped16(i)]
    ensures forall i :: 0 <= i < SYMBOL_BITS ==> z[i] <= 1
  {
    hide Perm;
    forall i | 0 <= i < SYMBOL_BITS ensures z[i] <= 1 {
      var k := Swapped16(i);
      PermSurjective(k / 2);
      var n: nat :| n < CARRIERS && Perm(n) == k / 2;
      assert y[2 * Perm(n)] == q[2 * n] == p[n];
      assert y[2 * Perm(n) + 1] == q[2 * n + 1] == p[n + CARRIERS];
      assert k == 2 * Perm(n) || k == 2 * Perm(n) + 1;
    }
  }

  /** The sender, run with the repository's own routines. */
  method Modulate(p: array<byte>, table49: seq<int>)
    returns (sym: array<byte>, ghost q: seq<byte>, ghost y: seq<byte>, ghost z: seq<byte>)
    requires p.Length == SYMBOL_BITS && table49 == Table49() && forall i :: 0 <= i < SYMBOL_BITS ==> p[i] <= 1
    ensures fresh(sym) && sym.Length == SYMBOL_BYTES && SentAs(p[..], q, y, z, sym[..])
  {
    hide Moved, Paired, Swapped16, Table49, Packed, Passes;
    var qbuf := new byte[SYMBOL_BITS](_ => 0);
    var ybuf := new byte[SYMBOL_BITS](_ => 0);
    var zbuf := new byte[SYMBOL_BITS](_ => 0);
    sym := new byte[SYMBOL_BYTES](_ => 0);
    QpskSymbolMapper(p, qbuf);
    FrequencyInterleaver(qbuf, ybuf, table49);
    WholePasses(192, 16);
    WholePasses(384, 8);
    Bitswap16(ybuf, zbuf, SYMBOL_BITS);
    q, y, z := qbuf[..], ybuf[..], zbuf[..];
    var n := BitToByte(false, zbuf, SYMBOL_BITS, sym);
    assert zbuf[..SYMBOL_BITS] == z && sym[..n] == sym[..];
  }

  /** One packet from the file. */
  method Fread(packet: seq<byte>, pktbuf: array<byte>)
    requires |packet| == pktbuf.Length == PACKET_BYTES
    modifies pktbuf
    ensures pktbuf[..] == packet
  {
    for i := 0 to PACKET_BYTES
      invariant pktbuf[..i] == packet[..i]
    {
      pktbuf[i] := packet[i];
    }
  }
}
