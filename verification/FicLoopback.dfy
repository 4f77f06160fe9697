/** The sender of the FIC made of the repository's own routines, connected to the receiver. */
module FicLoopback {
  import opened Bits
  import opened ByteBits
  import opened Viterbi
  import opened Decoding
  import opened Encoder
  import opened Depuncture
  import opened FicPuncture
  import opened Scrambler
  import opened Interleaver
  import opened Symbols
  import opened Fic
  import opened FicSender

  /** Disperse the bits of a block and pack them, as the encoder expects them. */
  method DispersedBytes(bits: array<byte>, ghost u: block) returns (data: array<byte>)
    requires bits.Length == BLOCK && bits[..] == u
    ensures fresh(data) && data.Length == 96 && data[..] == Packed(true, Dispersed(u))
  {
    hide Dispersed, ScrambledAt, PackedByte, Passes;
    var sbits := new byte[BLOCK](_ => 0);
    Scramble(bits, sbits, BLOCK);
    DispersedPrefix(bits[..], sbits[..], u);
    data := new byte[96](_ => 0);
    WholePasses(96, 8);
    var n := BitToByte(true, sbits, BLOCK, data);
    assert sbits[..BLOCK] == Dispersed(u) && data[..n] == data[..];
  }

  /** `scramble`, `bit_to_byte`, `encode` and `puncture`. */
  method SendBlock(bits: array<byte>, ghost u: block) returns (b: array<byte>)
    requires bits.Length == BLOCK && bits[..] == u
    ensures fresh(b) && b.Length == SENT && b[..] == SentBlock(u)
  {
    hide Dispersed, PackedByte, Code, DataBits, FicMask, Count, Punctured;
    var data := DispersedBytes(bits, u);
    var symbols := new byte[CODED](_ => 0);
    assert data[..96] == data[..];
    Encode(symbols, data, 96, 0, 0);
    ghost var v := Dispersed(u);
    EncodedIsCodeword(v);
    FicTotals();
    CodewordLength(v);
    assert symbols[..] == symbols[..CODED] == Codeword(v);
    PuncturedBits(FicMask(), Codeword(v), CODED);
    b := new byte[SENT](_ => 0);
    var n := Puncture(symbols, b);
    assert b[..] == b[..SENT];
  }

  /** A third of four blocks in a row. */
  method Third(b0: array<byte>, b1: array<byte>, b2: array<byte>, b3: array<byte>, start: nat, ghost x: seq<bit>)
    returns (p: array<byte>)
    requires b0.Length == b1.Length == b2.Length == b3.Length == SENT && start + SYMBOL_BITS <= FIC_BITS
    requires x == b0[..] + b1[..] + b2[..] + b3[..]
    ensures fresh(p) && p.Length == SYMBOL_BITS && p[..] == x[start..start + SYMBOL_BITS]
  {
    p := new byte[SYMBOL_BITS](_ => 0);
    for i := 0 to SYMBOL_BITS
      invariant forall k :: 0 <= k < i ==> p[k] == x[start + k]
    {
      var k := start + i;
      p[i] := if k < SENT then b0[k] else if k < 2 * SENT then b1[k - SENT]
              else if k < 3 * SENT then b2[k - 2 * SENT] else b3[k - 3 * SENT];
    }
  }

  method SendSymbol(p: array<byte>, table49: seq<int>, ghost x: seq<bit>) returns (sym: array<byte>, ghost s: Sending)
    requires p.Length == SYMBOL_BITS && p[..] == x && table49 == Table49()
    ensures fresh(sym) && sym.Length == SYMBOL_BYTES && s.sym == sym[..] && Carries(s, x)
  {
    hide Table49, SentAs;
    assert forall i :: 0 <= i < SYMBOL_BITS ==> p[i] == x[i];
    ghost var q: seq<byte>, y: seq<byte>, z: seq<byte>;
    sym, q, y, z := Modulate(p, table49);
    s := Sending(q, y, z, sym[..]);
  }

  /** Four blocks of 768 bits to three symbols. */
  method SendFrame(bits: seq<array<byte>>, ghost us: seq<block>)
    returns (sym2: array<byte>, sym3: array<byte>, sym4: array<byte>,
             ghost s2: Sending, ghost s3: Sending, ghost s4: Sending)
    requires |bits| == |us| == 4 && forall f :: 0 <= f < 4 ==> bits[f].Length == BLOCK && bits[f][..] == us[f]
    ensures fresh(sym2) && fresh(sym3) && fresh(sym4) && sym2.Length == sym3.Length == sym4.Length == SYMBOL_BYTES
    ensures s2.sym == sym2[..] && s3.sym == sym3[..] && s4.sym == sym4[..]
    ensures var x := SentFrame(us);
            Carries(s2, x[..3072]) && Carries(s3, x[3072..6144]) && Carries(s4, x[6144..9216])
  {
    hide SentBlock, Table49, Carries;
    var b0 := SendBlock(bits[0], us[0]);
    var b1 := SendBlock(bits[1], us[1]);
    var b2 := SendBlock(bits[2], us[2]);
    var b3 := SendBlock(bits[3], us[3]);
    ghost var x := SentFrame(us);
    var table49 := InitTable49();
    var p2 := Third(b0, b1, b2, b3, 0, x);
    var p3 := Third(b0, b1, b2, b3, 3072, x);
    var p4 := Third(b0, b1, b2, b3, 6144, x);
    sym2, s2 := SendSymbol(p2, table49, x[..3072]);
    sym3, s3 := SendSymbol(p3, table49, x[3072..6144]);
    sym4, s4 := SendSymbol(p4, table49, x[6144..9216]);
  }

  /** The FIC connected to itself: whatever twelve payloads the blocks hold, `fic_decode` delivers. */
  method Loopback(bits: seq<array<byte>>, ghost ps: seq<seq<byte>>, obuf: array<byte>,
                  m: Mettab, ghost g: int, ghost w: int, longBits: wordsize) returns (okfibs: nat)
    requires Symmetric(m, g, w) && Payloads(ps) && obuf.Length >= 360
    requires |bits| == 4 && forall f :: 0 <= f < 4 ==> bits[f].Length == BLOCK && bits[f][..] == Blocks(ps)[f]
    modifies obuf
    ensures Restored(ps, old(obuf[..]), obuf[..], okfibs)
  {
    hide Blocks, SentFrame, Carries, FicOutput, Restored;
    var sym2, sym3, sym4, s2, s3, s4 := SendFrame(bits, Blocks(ps));
    ghost var before := obuf[..];
    okfibs := FicDecode(sym2, sym3, sym4, obuf, m, longBits);
    FicRoundTrip(m, g, w, ps, s2, s3, s4, before, obuf[..], okfibs);
  }
}
