/** The convolutional encoder, and the wrapper that maps hard bits and erasures to the
    soft symbols that the decoder expects. */
module Encoder {
  import opened Bits
  import opened ByteBits
  import opened ConvCode
  import opened Trellis
  import opened Viterbi
  import opened Decoding

  function TailBits(endstate: nat): (x: seq<bit>)
    ensures |x| == 6
  {
    seq(6, k requires 0 <= k < 6 => BitAt(endstate, 5 - k))
  }

  function ShiftIn(encstate: nat, b: bit): nat {
    2 * encstate % 0x1_0000_0000 + b
  }

  lemma {:induction false} ShiftInReg(encstate: nat, b: bit)
    ensures ShiftIn(encstate, b) % 128 == 2 * (encstate % 64) + b
    ensures ShiftIn(encstate, b) % 64 == Next(encstate % 64, b)
  {
    var q, s, r := encstate / 64, encstate % 64, ShiftIn(encstate, b);
    var h := q % 0x200_0000;
    ShiftedDigits(encstate, q, s, h);
    Remainder128(r, h, 2 * s + b);
    var d := if s < 32 then 0 else 1;
    Remainder64(r, 2 * h + d, Next(s, b));
  }

  lemma {:induction false} ShiftedDigits(encstate: nat, q: nat, s: nat, h: nat)
    requires encstate == 64 * q + s && s < 64 && h == q % 0x200_0000
    ensures 2 * encstate % 0x1_0000_0000 == 128 * h + 2 * s
  {
    var k := q / 0x200_0000;
    assert q == 0x200_0000 * k + h;
    Remainder32(2 * encstate, k, 128 * h + 2 * s);
  }

  lemma {:induction false} Remainder32(v: nat, q: nat, r: nat)
    requires v == 0x1_0000_0000 * q + r && r < 0x1_0000_0000
    ensures v % 0x1_0000_0000 == r
  {
  }

  lemma {:induction false} Remainder128(v: nat, q: nat, r: nat)
    requires v == 128 * q + r && r < 128
    ensures v % 128 == r
  {
  }

  lemma {:induction false} Remainder64(v: nat, q: nat, r: nat)
    requires v == 64 * q + r && r < 64
    ensures v % 64 == r
  {
  }

  /** The four symbols of one register, written at position pos. */
  method EmitSymbols(symbols: array<byte>, pos: nat, encstate: nat)
    requires pos + 4 <= symbols.Length
    modifies symbols
    ensures forall j :: 0 <= j < 4 ==> symbols[pos + j] == Out(encstate % 128, j)
    ensures forall i :: 0 <= i < symbols.Length && !(pos <= i < pos + 4) ==> symbols[i] == old(symbols[i])
  {
    hide Out;
    for j := 0 to N
      invariant forall k :: 0 <= k < j ==> symbols[pos + k] == Out(encstate % 128, k)
      invariant forall i :: 0 <= i < symbols.Length && !(pos <= i < pos + 4) ==> symbols[i] == old(symbols[i])
    {
      symbols[pos + j] := MaskedParity(encstate, j);
    }
  }

  method MaskedParity(encstate: nat, j: nat) returns (p: bit)
    requires j < N
    ensures p == Out(encstate % 128, j)
  {
    hide Out;
    OutLow(encstate, j);
    p := TapParity(encstate, j);
  }

  /** Register and symbols for bit t of the input x. */
  method EncodeBit(symbols: array<byte>, encstate: nat, b: bit, ghost s: state, ghost x: seq<bit>, t: nat)
    returns (encstate': nat)
    requires t < |x| && x[t] == b && 4 * |x| <= symbols.Length
    requires encstate % 64 == StateAt(s, x, t)
    requires forall i :: 0 <= i < 4 * t ==> symbols[i] == Code(s, x)[i]
    modifies symbols
    ensures encstate' % 64 == StateAt(s, x, t + 1)
    ensures forall i :: 0 <= i < 4 * t + 4 ==> symbols[i] == Code(s, x)[i]
    ensures forall i :: 4 * t + 4 <= i < symbols.Length ==> symbols[i] == old(symbols[i])
  {
    hide Out, Code;
    encstate' := ShiftIn(encstate, b);
    ShiftInReg(encstate, b);
    EmitSymbols(symbols, 4 * t, encstate');
    CodeOfStep(s, x, t);
    assert RegAt(s, x, t) == encstate' % 128;
    assert symbols[4 * t + 0] == Code(s, x)[4 * t];
    assert symbols[4 * t + 1] == Code(s, x)[4 * t + 1];
    assert symbols[4 * t + 2] == Code(s, x)[4 * t + 2];
    assert symbols[4 * t + 3] == Code(s, x)[4 * t + 3];
  }

  /** `encode`: the code of the data bits and of the six bits that lead to the end state. */
  method Encode(symbols: array<byte>, data: array<byte>, nbytes: nat, startstate: nat, endstate: nat)
    requires nbytes <= data.Length && 4 * (8 * nbytes + 6) <= symbols.Length && symbols != data
    modifies symbols
    ensures symbols[..4 * (8 * nbytes + 6)]
         == Code(startstate % 64, DataBits(old(data[..nbytes])) + TailBits(endstate))
    ensures symbols[4 * (8 * nbytes + 6)..] == old(symbols[4 * (8 * nbytes + 6)..])
  {
    hide Code, StateAt, BitAt;
    var encstate := startstate;
    ghost var s: state := startstate % 64;
    ghost var x := DataBits(data[..nbytes]) + TailBits(endstate);
    StateAtZero(s, x);
    for k := 0 to 8 * nbytes
      invariant encstate % 64 == StateAt(s, x, k)
      invariant forall i :: 0 <= i < 4 * k ==> symbols[i] == Code(s, x)[i]
      invariant forall i :: 4 * |x| <= i < symbols.Length ==> symbols[i] == old(symbols[i])
      invariant data[..nbytes] == old(data[..nbytes])
    {
      assert x[k] == BitAt(data[k / 8], 7 - k % 8);
      encstate := EncodeBit(symbols, encstate, BitAt(data[k / 8], 7 - k % 8), s, x, k);
    }
    for k := 0 to 6
      invariant encstate % 64 == StateAt(s, x, 8 * nbytes + k)
      invariant forall i :: 0 <= i < 4 * (8 * nbytes + k) ==> symbols[i] == Code(s, x)[i]
      invariant forall i :: 4 * |x| <= i < symbols.Length ==> symbols[i] == old(symbols[i])
    {
      encstate := EncodeBit(symbols, encstate, BitAt(endstate, 5 - k), s, x, 8 * nbytes + k);
    }
  }

  lemma {:induction false} StateAtZero(s: state, x: seq<bit>)
    ensures StateAt(s, x, 0) == s
  {
  }

  /** Hard bits and anything else: 1 -> 129, 0 -> 127, erased -> 128. */
  function SoftOf(v: byte): byte {
    if v == 1 then 129 else if v == 0 then 127 else 128
  }

  function SoftBuffer(buf: seq<byte>): (y: seq<byte>)
    ensures |y| == |buf|
  {
    seq(|buf|, i requires 0 <= i < |buf| => SoftOf(buf[i]))
  }

  /** `viterbi`: decode a buffer of hard bits and erasure marks. */
  method DecodeHard(ibuf: array<byte>, ilen: nat, obuf: array<byte>, m: Mettab, longBits: wordsize) returns (olen: nat)
    requires 24 <= ilen <= 3096 && ilen <= ibuf.Length && obuf.Length >= ilen / 4 - 6 && obuf != ibuf
    modifies obuf
    ensures olen == ilen / 4 - 6
    ensures obuf[..olen] == Decoded(Received(m, SoftBuffer(old(ibuf[..ilen]))), olen)
    ensures obuf[olen..] == old(obuf[olen..])
  {
    hide Received, Decoded;
    olen := ilen / N - (K - 1);
    var symbols := new byte[ilen];
    for i := 0 to ilen
      modifies symbols
      invariant forall k :: 0 <= k < i ==> symbols[k] == SoftOf(ibuf[k])
    {
      symbols[i] := if ibuf[i] == 1 then 128 + 1 else if ibuf[i] == 0 then 128 - 1 else 128;
    }
    assert symbols[..] == SoftBuffer(ibuf[..ilen]);
    var metric := KViterbi(obuf, symbols, olen, m, 0, 0, longBits);
  }
}
