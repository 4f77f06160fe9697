/** The assembly of CIFs from a stream of symbols, and the decoding of a frame whenever the buffer
    has filled up. */
module MscAssemble {
  import opened Bits
  import opened Viterbi
  import opened Tables
  import opened Interleaver
  import opened Symbols
  import opened SymbolRange
  import opened MscBuffer
  import opened MscDecode

  /** A symbol from the receiver: its number, the number of its frame, and its bits. */
  datatype Packet = Packet(sym: nat, frame: nat, bits: seq<byte>)

  function PacketOf(buf: seq<byte>): Packet
    requires |buf| == PACKET_BYTES
  {
    hide Demodulated;
    Packet(buf[2], buf[3], Demodulated(buf[12..396]))
  }

  /** The packet has its symbol number in byte 2, its frame number in byte 3 and its symbol from byte 12 on. */
  predicate ReadFrom(p: Packet, buf: seq<byte>) {
    hide Demodulated;
    |buf| == PACKET_BYTES && p.sym == buf[2] && p.frame == buf[3] && p.bits == Demodulated(buf[12..396])
  }

  /** What a run decodes: a sub-channel in its symbols. */
  datatype Config = Config(s: Subch, r: SymRange, m: Mettab)

  predicate Configured(c: Config) {
    c.s.startaddr >= 0 && c.s.subchsz >= 1 && RangeOf(c.r, c.s.startaddr, c.s.subchsz)
  }

  /** The state between two symbols: the CIFs received since the last reset, the number of the current
      frame, and the frames handed to the audio output. */
  datatype Msc = Msc(cifs: seq<seq<byte>>, frame: nat, delivered: seq<seq<byte>>)

  /** The seven conditions that follow the one for the first symbol of the first CIF. */
  predicate Hit(r: SymRange, sym: nat, i: nat)
    requires |r.start| == |r.end| == 4 && i < 7
  {
    if i < 3 then sym == r.start[i + 1] else r.start[i - 3] < sym <= r.end[i - 3]
  }

  function Hits(r: SymRange, sym: nat, n: nat): nat
    requires |r.start| == |r.end| == 4 && n <= 7
  {
    if n == 0 then 0 else Hits(r, sym, n - 1) + (if Hit(r, sym, n - 1) then 1 else 0)
  }

  /** The effect of k hits: a frame number that does not match resets the buffer. */
  function After(h: seq<seq<byte>>, same: bool, bits: seq<byte>, numsyms: nat, k: nat): seq<seq<byte>> {
    if k == 0 then h else if !same then [] else Extended(After(h, same, bits, numsyms, k - 1), bits, numsyms)
  }

  /** The bytes that a buffer full of CIFs yields; only a sub-channel that can be decoded is selected. */
  function Output(c: Config, h: seq<seq<byte>>): seq<byte>
    requires Configured(c)
  {
    hide FrameBytes, Deinterleaved, Decodable;
    RangeHolds(c.r, c.s.startaddr, c.s.subchsz);
    if Decodable(c.s) && |h| >= 16 && AllComplete(h, c.r.numsyms)
    then FrameBytes(c.m, c.s, Deinterleaved(h, c.r.startcu, c.s.subchsz, c.r.numsyms)) else []
  }

  /** Hand out a frame if a symbol was stored and the buffer is full. */
  function Deliver(c: Config, h: seq<seq<byte>>, frame: nat, delivered: seq<seq<byte>>, stored: bool): Msc
    requires Configured(c)
  {
    hide Output;
    Msc(h, frame, if stored && Ready(h, c.r.numsyms) then delivered + [Output(c, h)] else delivered)
  }

  /** `msc_assemble` as a step of the state. */
  function NextState(c: Config, t: Msc, p: Packet): Msc
    requires Configured(c)
  {
    hide Hit, Deliver, After;
    if p.sym == c.r.start[0] then
      Deliver(c, Extended(t.cifs, p.bits, c.r.numsyms), p.frame, t.delivered, true)
    else
      var k, same := Hits(c.r, p.sym, 7), p.frame == t.frame;
      Deliver(c, After(t.cifs, same, p.bits, c.r.numsyms, k), t.frame, t.delivered, k > 0 && same)
  }

  class Assembler {
    const c: Config
    const cbuf: CircularBuffer
    const longBits: wordsize
    const table49: seq<int>
    var curFrame: byte
    var delivered: seq<seq<byte>>

    ghost predicate Valid()
      reads this, cbuf, cbuf.data, cbuf.syms
    {
      && Configured(c) && Decodable(c.s) && cbuf.numsyms == c.r.numsyms && table49 == Table49()
      && cbuf.Valid()
    }

    ghost function State(): Msc
      reads this, cbuf
    {
      Msc(cbuf.cifs, curFrame, delivered)
    }

    constructor (c: Config, longBits: wordsize)
      requires Configured(c) && Decodable(c.s)
      ensures Valid() && State() == Msc([], 0, []) && this.c == c
      ensures fresh(cbuf) && fresh(cbuf.data) && fresh(cbuf.syms)
    {
      hide Table49, Decodable;
      this.c := c;
      this.longBits := longBits;
      var t := InitTable49();
      table49 := t;
      cbuf := new CircularBuffer(c.r.numsyms);
      curFrame := 0;
      delivered := [];
    }

    /** Deinterleave one symbol in frequency and store it. */
    method Take(symbuf: array<byte>) returns (full: bool)
      requires Valid() && symbuf.Length == PACKET_BYTES && (symbuf as object) != cbuf.syms
      modifies cbuf, cbuf.data, cbuf.syms
      ensures Valid() && cbuf.cifs == Extended(old(cbuf.cifs), PacketOf(symbuf[..]).bits, c.r.numsyms)
      ensures full == Ready(cbuf.cifs, c.r.numsyms)
      ensures (cbuf.data == old(cbuf.data) || fresh(cbuf.data)) && cbuf.syms == old(cbuf.syms)
    {
      hide Demodulated, Table49, Extended, Ready;
      var fbuf := new byte[SYMBOL_BITS](_ => 0);
      Demodulate(symbuf, 12, table49, fbuf);
      assert symbuf[12..12 + SYMBOL_BYTES] == symbuf[..][12..396];
      full := cbuf.Write(fbuf);
    }

    /** One of the seven conditions holds. */
    method TakeOrReset(symbuf: array<byte>, frame: byte, full: bool, ghost h: seq<seq<byte>>, ghost k: nat)
      returns (full': bool)
      requires Valid() && symbuf.Length == PACKET_BYTES && (symbuf as object) != cbuf.syms
      requires cbuf.cifs == After(h, frame == curFrame, PacketOf(symbuf[..]).bits, c.r.numsyms, k)
      modifies cbuf, cbuf.data, cbuf.syms
      ensures Valid() && cbuf.cifs == After(h, frame == curFrame, PacketOf(symbuf[..]).bits, c.r.numsyms, k + 1)
      ensures full' == if frame == curFrame then Ready(cbuf.cifs, c.r.numsyms) else full
      ensures (cbuf.data == old(cbuf.data) || fresh(cbuf.data)) && cbuf.syms == old(cbuf.syms)
    {
      hide Demodulated, Table49, Extended, Ready, Configured;
      full' := full;
      if frame != curFrame {
        cbuf.Reset();
      } else {
        full' := Take(symbuf);
      }
    }

    /** The loops over the other three CIFs and over the later symbols of all four. */
    method TakeLater(symbuf: array<byte>, sym: byte, frame: byte) returns (full: bool)
      requires Valid() && symbuf.Length == PACKET_BYTES && (symbuf as object) != cbuf.syms
      modifies cbuf, cbuf.data, cbuf.syms
      ensures Valid() && (cbuf.data == old(cbuf.data) || fresh(cbuf.data)) && cbuf.syms == old(cbuf.syms)
      ensures var k, same := Hits(c.r, sym, 7), frame == curFrame;
              && cbuf.cifs == After(old(cbuf.cifs), same, PacketOf(symbuf[..]).bits, c.r.numsyms, k)
              && full == (k > 0 && same && Ready(cbuf.cifs, c.r.numsyms))
    {
      hide Demodulated, Table49, Extended, Ready, After, CircularBuffer.Valid, PacketOf, Decodable;
      full := false;
      NoHits(cbuf.cifs, frame == curFrame, PacketOf(symbuf[..]).bits, c.r.numsyms);
      for j := 1 to 4
        invariant Valid() && (cbuf.data == old(cbuf.data) || fresh(cbuf.data)) && cbuf.syms == old(cbuf.syms)
        invariant cbuf.cifs == After(old(cbuf.cifs), frame == curFrame,
                                      PacketOf(symbuf[..]).bits, c.r.numsyms, Hits(c.r, sym, j - 1))
        invariant full == (Hits(c.r, sym, j - 1) > 0 && frame == curFrame && Ready(cbuf.cifs, c.r.numsyms))
      {
        assert Hit(c.r, sym, j - 1) <==> sym == c.r.start[j];
        if sym == c.r.start[j] {
          full := TakeOrReset(symbuf, frame, full, old(cbuf.cifs), Hits(c.r, sym, j - 1));
        }
      }
      for j := 0 to 4
        invariant Valid() && (cbuf.data == old(cbuf.data) || fresh(cbuf.data)) && cbuf.syms == old(cbuf.syms)
        invariant cbuf.cifs == After(old(cbuf.cifs), frame == curFrame,
                                      PacketOf(symbuf[..]).bits, c.r.numsyms, Hits(c.r, sym, j + 3))
        invariant full == (Hits(c.r, sym, j + 3) > 0 && frame == curFrame && Ready(cbuf.cifs, c.r.numsyms))
      {
        assert Hit(c.r, sym, j + 3) <==> c.r.start[j] < sym <= c.r.end[j];
        if sym > c.r.start[j] && sym <= c.r.end[j] {
          full := TakeOrReset(symbuf, frame, full, old(cbuf.cifs), Hits(c.r, sym, j + 3));
        }
      }
    }

    /** `msc_decode`: deinterleave in time, decode, hand the bytes to the audio output. */
    method Decode()
      requires Valid() && Ready(cbuf.cifs, c.r.numsyms)
      modifies this`delivered
      ensures delivered == old(delivered) + [Output(c, cbuf.cifs)]
    {
      hide FrameBytes, Deinterleaved, Decodable, Table49;
      RangeHolds(c.r, c.s.startaddr, c.s.subchsz);
      var lf := new byte[BITS_PER_CU * c.s.subchsz](_ => 0);
      cbuf.TimeDisinterleave(lf, c.s.subchsz, c.r.startcu);
      assert lf[..] == lf[..BITS_PER_CU * c.s.subchsz];
      var obuf, obytes := DecodeFrame(lf, c.s, c.m, longBits);
      delivered := delivered + [obuf[..obytes]];
    }

    /** `msc_assemble` */
    method Assemble(symbuf: array<byte>)
      requires Valid() && symbuf.Length == PACKET_BYTES && (symbuf as object) != cbuf.syms
      modifies this, cbuf, cbuf.data, cbuf.syms
      ensures Valid() && State() == NextState(c, old(State()), PacketOf(old(symbuf[..])))
      ensures ReadFrom(PacketOf(old(symbuf[..])), old(symbuf[..]))
      ensures (cbuf.data == old(cbuf.data) || fresh(cbuf.data)) && cbuf.syms == old(cbuf.syms)
    {
      hide Demodulated, Table49, Extended, Ready, After, CircularBuffer.Valid, Decodable, Hits, Output;
      var sym, frame := symbuf[2], symbuf[3];
      ghost var p := PacketOf(symbuf[..]);
      var bufferFull := false;
      if sym == c.r.start[0] {
        curFrame := frame;
        bufferFull := Take(symbuf);
      } else {
        bufferFull := TakeLater(symbuf, sym, frame);
      }
      if bufferFull {
        Decode();
      }
    }
  }

  lemma {:induction false} NoHits(h: seq<seq<byte>>, same: bool, bits: seq<byte>, numsyms: nat)
    ensures After(h, same, bits, numsyms, 0) == h
  {
  }
}
