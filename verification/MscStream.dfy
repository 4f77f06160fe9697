/** From a recording of packets to the audio frames. */
module MscStream {
  import opened Bits
  import opened Decoding
  import opened Interleaver
  import opened Symbols
  import opened SymbolRange
  import opened MscBuffer
  import opened MscDecode
  import opened MscSender
  import opened MscAssemble
  import opened MscRun
  import opened MscEndToEnd

  /** A frame on the air: its number, its packets, their symbols, the blocks that the symbols of the MSC carry, and
      which of the packets are received. */
  datatype Transmission = Transmission(number: nat, packets: seq<seq<byte>>, symbols: seq<Sending>,
                                       blocks: seq<seq<bit>>, keep: seq<bool>)

  predicate Arrives(f: Transmission, i: nat)
    requires i < |f.packets| && i < |f.symbols|
  {
    hide PacketWith;
    PacketWith(f.packets[i], i, f.number, f.symbols[i].sym)
  }

  ghost predicate Bears(f: Transmission, i: nat)
    requires i < |f.symbols| && i < |f.blocks|
  {
    hide Carries;
    Carries(f.symbols[i], f.blocks[i])
  }

  /** Symbols 0 to 76, those of the MSC with their blocks. */
  ghost predicate Transmitted(f: Transmission) {
    hide Arrives, Bears;
    && |f.packets| == |f.symbols| == |f.blocks| == |f.keep| == LAST_SYMBOL + 1
    && (forall i: nat :: i <= LAST_SYMBOL ==> Arrives(f, i))
    && forall i: nat :: MSC_START <= i <= LAST_SYMBOL ==> Bears(f, i)
  }

  /** What a received packet is to the assembly. */
  lemma {:induction false} PacketOfBuffer(buf: seq<byte>, number: nat, frame: nat, s: Sending, p: seq<bit>)
    requires PacketWith(buf, number, frame, s.sym) && Carries(s, p)
    ensures PacketOf(buf) == Packet(number, frame, p) && |p| == BITS_PER_SYMBOL
  {
    hide SentAs, Demodulated;
    SymbolRoundTrip(p, s.q, s.y, s.z, s.sym);
  }

  lemma {:induction false} PacketHeader(buf: seq<byte>, number: nat, frame: nat, sym: seq<byte>)
    requires PacketWith(buf, number, frame, sym)
    ensures |buf| == PACKET_BYTES
    ensures var p := PacketOf(buf); p.sym == number && p.frame == frame && |p.bits| == BITS_PER_SYMBOL
  {
    hide Demodulated;
  }

  function PacketsOf(bufs: seq<seq<byte>>): (ps: seq<Packet>)
    requires WholePackets(bufs)
    ensures |ps| == |bufs|
  {
    hide PacketOf;
    seq(|bufs|, k requires 0 <= k < |bufs| => PacketOf(bufs[k]))
  }

  lemma {:induction false} FramePackets(f: Transmission)
    requires Transmitted(f)
    ensures WholePackets(f.packets) && CompleteFrame(PacketsOf(f.packets), f.number)
    ensures forall i: nat :: MSC_START <= i <= LAST_SYMBOL ==> PacketsOf(f.packets)[i].bits == f.blocks[i]
  {
    hide PacketOf, PacketWith, Carries;
    forall i: nat | i <= LAST_SYMBOL
      ensures |f.packets[i]| == PACKET_BYTES
      ensures var p := PacketOf(f.packets[i]);
              && p.sym == i && p.frame == f.number && |p.bits| == BITS_PER_SYMBOL
              && (i >= MSC_START ==> p.bits == f.blocks[i])
    {
      assert Arrives(f, i);
      PacketHeader(f.packets[i], i, f.number, f.symbols[i].sym);
      if i >= MSC_START {
        assert Bears(f, i);
        PacketOfBuffer(f.packets[i], i, f.number, f.symbols[i], f.blocks[i]);
      }
    }
  }

  // The receiver may pass over symbols that it does not need.

  function Kept<T>(xs: seq<T>, keep: seq<bool>, n: nat): (ys: seq<T>)
    requires n <= |xs| && n <= |keep|
    ensures |ys| <= n
  {
    if n == 0 then [] else Kept(xs, keep, n - 1) + (if keep[n - 1] then [xs[n - 1]] else [])
  }

  /** All symbols of the sub-channel are received. */
  predicate KeepsRange(r: SymRange, keep: seq<bool>)
    requires |r.start| == |r.end| == 4
  {
    hide Relevant;
    |keep| == LAST_SYMBOL + 1 && forall i: nat :: i <= LAST_SYMBOL && Relevant(r, i) ==> keep[i]
  }

  lemma {:induction false} KeptSelected(r: SymRange, ps: seq<Packet>, num: nat, keep: seq<bool>, n: nat)
    requires |r.start| == |r.end| == 4 && CompleteFrame(ps, num) && KeepsRange(r, keep) && n <= LAST_SYMBOL + 1
    ensures SelectedPackets(r, Kept(ps, keep, n)) == SelectedPackets(r, ps[..n])
    decreases n
  {
    hide Relevant;
    if n > 0 {
      KeptSelected(r, ps, num, keep, n - 1);
      PrefixLast(ps, n);
      LastSelected(r, Kept(ps, keep, n - 1), ps[n - 1]);
    }
  }

  lemma {:induction false} LastSelected(r: SymRange, ps: seq<Packet>, p: Packet)
    requires |r.start| == |r.end| == 4
    ensures SelectedPackets(r, ps + [p]) == SelectedPackets(r, ps) + (if Relevant(r, p.sym) then [p] else [])
    ensures ps + [] == ps
  {
    hide Relevant;
    assert (ps + [p])[..|ps|] == ps;
  }

  /** The received packets of a frame and, among them, those of the four CIFs. */
  function FrameOf(r: SymRange, f: Transmission): Frame
    requires RangesDisjoint(r) && r.end[3] < |f.packets| && WholePackets(f.packets)
    requires |f.packets| <= |f.keep|
  {
    hide RangesDisjoint, PacketsOf;
    var ps := PacketsOf(f.packets);
    Whole(r, ps, f.number).(ps := Kept(ps, f.keep, |ps|))
  }

  ghost predicate Tunes(r: SymRange, f: Transmission) {
    hide Transmitted;
    && |r.start| == |r.end| == 4 && RangesDisjoint(r) && r.end[3] <= LAST_SYMBOL && Transmitted(f)
    && KeepsRange(r, f.keep) && |f.packets| == LAST_SYMBOL + 1 && WholePackets(f.packets)
  }

  lemma {:induction false} FrameIsIntact(r: SymRange, f: Transmission)
    requires Tunes(r, f)
    ensures Intact(r, FrameOf(r, f))
  {
    hide SelectedPackets, CifPackets, Transmitted, RangesDisjoint, KeepsRange;
    var ps := PacketsOf(f.packets);
    FramePackets(f);
    CompleteIsIntact(r, ps, f.number);
    KeptSelected(r, ps, f.number, f.keep, |ps|);
    assert ps[..|ps|] == ps;
  }

  // The bits of the CIFs.

  lemma {:induction false} JoinedAt(r: SymRange, q: seq<Packet>, j: nat, num: nat, n: nat, k: nat, x: nat)
    requires |r.start| == |r.end| == 4 && j < 4 && CifPackets(r, q, j, num) && k < n <= |q| && x < BITS_PER_SYMBOL
    ensures |JoinedBits(q, n)| == n * BITS_PER_SYMBOL && k * BITS_PER_SYMBOL + x < n * BITS_PER_SYMBOL
    ensures JoinedBits(q, n)[k * BITS_PER_SYMBOL + x] == q[k].bits[x]
    decreases n
  {
    JoinedBitsLength(r, q, j, num, n);
    JoinedBitsLength(r, q, j, num, n - 1);
    if k < n - 1 {
      JoinedAt(r, q, j, num, n - 1, k, x);
    }
  }

  predicate Framed(f: Transmission) {
    |f.blocks| == LAST_SYMBOL + 1 && forall i :: MSC_START <= i <= LAST_SYMBOL ==> |f.blocks[i]| == BITS_PER_SYMBOL
  }

  /** Bit x of CIF j of the frame: section 13 of EN 300 401 puts the 18 blocks of each CIF one after the other. */
  function CifBit(f: Transmission, j: nat, x: nat): byte
    requires Framed(f) && j < 4 && x < BITS_PER_CU * CUS_PER_CIF
  {
    f.blocks[MSC_START + SYMBOLS_PER_CIF * j + x / BITS_PER_SYMBOL][x % BITS_PER_SYMBOL]
  }

  lemma {:induction false} AddressOf(r: SymRange, startaddr: nat, subchsz: nat, j: nat, b: nat)
    requires RangeOf(r, startaddr, subchsz) && startaddr + subchsz < CUS_PER_CIF && j < 4 && b < BITS_PER_CU * subchsz
    ensures var x, y := BITS_PER_CU * startaddr + b, BITS_PER_CU * r.startcu + b;
            && x < BITS_PER_CU * CUS_PER_CIF && y % BITS_PER_SYMBOL == x % BITS_PER_SYMBOL
            && y / BITS_PER_SYMBOL < r.numsyms
            && r.start[j] + y / BITS_PER_SYMBOL == MSC_START + SYMBOLS_PER_CIF * j + x / BITS_PER_SYMBOL
  {
    RangeHolds(r, startaddr, subchsz);
    var a, x, y := startaddr / 48, 64 * startaddr + b, 64 * r.startcu + b;
    assert startaddr == 48 * a + r.startcu;
    assert x == 3072 * a + y;
    assert y < 3072 * r.numsyms;
  }

  lemma {:induction false} TransmittedFramed(f: Transmission)
    requires Transmitted(f)
    ensures Framed(f)
  {
    hide SentAs;
    forall i | MSC_START <= i <= LAST_SYMBOL ensures |f.blocks[i]| == BITS_PER_SYMBOL {
      assert Bears(f, i);
      BlockSize(f.symbols[i], f.blocks[i]);
    }
  }

  lemma {:induction false} BlockSize(s: Sending, p: seq<bit>)
    requires Carries(s, p)
    ensures |p| == BITS_PER_SYMBOL
  {
  }

  /** Bit b of the sub-channel in CIF j, as the assembly puts it together, is bit 64 * startaddr + b of the CIF. */
  lemma {:induction false} PartBit(r: SymRange, startaddr: nat, subchsz: nat, f: Transmission, ps: seq<Packet>,
                                   j: nat, b: nat)
    requires RangeOf(r, startaddr, subchsz) && startaddr + subchsz < CUS_PER_CIF && Tunes(r, f) && Framed(f)
    requires ps == PacketsOf(f.packets) && j < 4 && b < BITS_PER_CU * subchsz
    ensures r.end[j] < |ps| && r.start[j] <= r.end[j]
    ensures var q := ps[r.start[j]..r.end[j] + 1];
            var cif := JoinedBits(q, |q|);
            && BITS_PER_CU * r.startcu + b < |cif|
            && cif[BITS_PER_CU * r.startcu + b] == CifBit(f, j, BITS_PER_CU * startaddr + b)
  {
    hide Transmitted, PacketsOf, CompleteFrame, JoinedBits, KeepsRange, WholePackets, CifPackets;
    FramePackets(f);
    assert r.end[j] < |ps| && r.start[j] <= r.end[j] by { RangesFit(r, startaddr, subchsz); }
    SlicePackets(r, ps, f.number, j);
    AddressOf(r, startaddr, subchsz, j, b);
    var q, y := ps[r.start[j]..r.end[j] + 1], BITS_PER_CU * r.startcu + b;
    JoinedAt(r, q, j, f.number, |q|, y / BITS_PER_SYMBOL, y % BITS_PER_SYMBOL);
  }

  ghost predicate AllTuned(r: SymRange, fs: seq<Transmission>) {
    hide Tunes;
    forall k :: 0 <= k < |fs| ==> Tunes(r, fs[k])
  }

  ghost function FramesOf(r: SymRange, fs: seq<Transmission>): (xs: seq<Frame>)
    requires AllTuned(r, fs)
    ensures |xs| == |fs|
  {
    hide FrameOf, Transmitted, RangesDisjoint, WholePackets;
    seq(|fs|, k requires 0 <= k < |fs| => assert Tunes(r, fs[k]); FrameOf(r, fs[k]))
  }

  lemma {:induction false} FramesIntact(c: Config, fs: seq<Transmission>)
    requires Configured(c) && AllTuned(c.r, fs)
    ensures |c.r.start| == |c.r.end| == 4 && AllIntact(c.r, FramesOf(c.r, fs))
  {
    hide Tunes, FrameOf, Intact;
    forall k | 0 <= k < |fs| ensures Intact(c.r, FramesOf(c.r, fs)[k]) {
      FrameIsIntact(c.r, fs[k]);
    }
  }

  lemma {:induction false} AllCifsAt(xs: seq<Frame>, k: nat, j: nat)
    requires k < |xs| && j < 4
    ensures AllCifs(xs)[4 * k + j] == Cifs(xs[k])[j]
    decreases |xs|
  {
    hide Cifs;
    var n := |xs| - 1;
    if k < n {
      AllCifsAt(xs[..n], k, j);
    }
  }

  ghost predicate BitSent(startaddr: nat, subchsz: nat, f: Transmission, k: nat, frames: int -> seq<byte>,
                          j: nat, b: nat)
    requires Framed(f) && startaddr + subchsz <= CUS_PER_CIF && j < 4 && b < BITS_PER_CU * subchsz
  {
    |frames(4 * k + j - Delay(b % 16))| > b &&
    CifBit(f, j, BITS_PER_CU * startaddr + b) == frames(4 * k + j - Delay(b % 16))[b]
  }

  /** The multiplex of EN 300 401: the sub-channel takes the capacity units from its address on, and CIF n carries
      bit b of logical frame n less the delay of b. */
  ghost predicate Multiplexed(startaddr: nat, subchsz: nat, fs: seq<Transmission>, frames: int -> seq<byte>) {
    hide Framed, BitSent;
    && startaddr + subchsz <= CUS_PER_CIF && (forall n :: |frames(n)| == BITS_PER_CU * subchsz)
    && (forall k :: 0 <= k < |fs| ==> Framed(fs[k]))
    && forall k: nat, j: nat, b: nat :: k < |fs| && j < 4 && b < BITS_PER_CU * subchsz ==>
         BitSent(startaddr, subchsz, fs[k], k, frames, j, b)
  }

  /** One bit of one CIF that the assembly has put together. */
  lemma {:induction false} CifBitSent(r: SymRange, startaddr: nat, subchsz: nat, fs: seq<Transmission>,
                                      frames: int -> seq<byte>, k: nat, j: nat, b: nat)
    requires RangeOf(r, startaddr, subchsz) && startaddr + subchsz < CUS_PER_CIF && AllTuned(r, fs)
    requires Multiplexed(startaddr, subchsz, fs, frames) && k < |fs| && j < 4 && b < BITS_PER_CU * subchsz
    ensures var cif := AllCifs(FramesOf(r, fs))[4 * k + j];
            && BITS_PER_CU * r.startcu + b < |cif| && |frames(4 * k + j - Delay(b % 16))| > b
            && cif[BITS_PER_CU * r.startcu + b] == frames(4 * k + j - Delay(b % 16))[b]
  {
    hide Transmitted, RangesDisjoint, KeepsRange, WholePackets, PacketsOf, JoinedBits, AllCifs, RangeOf, Framed, Delay;
    hide CifBit;
    var f := fs[k];
    assert Tunes(r, f) && Framed(f) && BitSent(startaddr, subchsz, f, k, frames, j, b);
    PartBit(r, startaddr, subchsz, f, PacketsOf(f.packets), j, b);
    AllCifsAt(FramesOf(r, fs), k, j);
  }

  /** What the assembly puts together from the packets of a multiplex is interleaved as the standard says. */
  lemma {:induction false} MultiplexInterleaved(c: Config, fs: seq<Transmission>, frames: int -> seq<byte>)
    requires Configured(c) && c.s.startaddr + c.s.subchsz < CUS_PER_CIF && AllTuned(c.r, fs)
    requires Multiplexed(c.s.startaddr, c.s.subchsz, fs, frames)
    ensures Interleaved(AllCifs(FramesOf(c.r, fs)), c.r.startcu, c.s.subchsz, c.r.numsyms, frames)
  {
    hide AllTuned, FramesOf, AllCifs, Run, Deliveries, Delay, RangeOf, BitSent, Framed;
    var h := AllCifs(FramesOf(c.r, fs));
    RangeHolds(c.r, c.s.startaddr, c.s.subchsz);
    FramesIntact(c, fs);
    IntactRun(c, Msc([], 0, []), FramesOf(c.r, fs));
    forall n, b: nat | 0 <= n < |h| && b < BITS_PER_CU * c.s.subchsz
      ensures BITS_PER_CU * c.r.startcu + b < |h[n]| && |frames(n - Delay(b % 16))| > b
      ensures h[n][BITS_PER_CU * c.r.startcu + b] == frames(n - Delay(b % 16))[b]
    {
      CifBitSent(c.r, c.s.startaddr, c.s.subchsz, fs, frames, n / 4, n % 4, b);
    }
  }

  /** The frames are transmitted, and every symbol of the sub-channel is received. */
  ghost predicate Heard(r: SymRange, fs: seq<Transmission>)
    requires |r.start| == |r.end| == 4
  {
    hide Transmitted, KeepsRange;
    forall k :: 0 <= k < |fs| ==> Transmitted(fs[k]) && KeepsRange(r, fs[k].keep)
  }

  lemma {:induction false} HeardTuned(c: Config, fs: seq<Transmission>)
    requires Configured(c) && c.s.startaddr + c.s.subchsz < CUS_PER_CIF && Heard(c.r, fs)
    ensures AllTuned(c.r, fs) && RangesDisjoint(c.r) && c.r.end[3] <= LAST_SYMBOL
  {
    hide RangesDisjoint, Transmitted, KeepsRange, WholePackets;
    DisjointRanges(c);
    RangesFit(c.r, c.s.startaddr, c.s.subchsz);
    forall k | 0 <= k < |fs| ensures |fs[k].packets| == LAST_SYMBOL + 1 && WholePackets(fs[k].packets) {
      FrameLengths(fs[k]);
    }
  }

  lemma {:induction false} FrameLengths(f: Transmission)
    requires Transmitted(f)
    ensures |f.packets| == |f.keep| == LAST_SYMBOL + 1 && WholePackets(f.packets)
  {
    hide Arrives, Bears;
    FramePackets(f);
  }

  /** The received packets of the first n frames. */
  function Received(fs: seq<Transmission>, n: nat): seq<seq<byte>>
    requires n <= |fs|
  {
    if n == 0 then []
    else
      var f := fs[n - 1];
      Received(fs, n - 1) + if |f.packets| <= |f.keep| then Kept(f.packets, f.keep, |f.packets|) else []
  }

  lemma {:induction false} KeptWhole(bufs: seq<seq<byte>>, keep: seq<bool>, n: nat)
    requires n <= |bufs| && n <= |keep| && WholePackets(bufs)
    ensures WholePackets(Kept(bufs, keep, n)) && PacketsOf(Kept(bufs, keep, n)) == Kept(PacketsOf(bufs), keep, n)
    decreases n
  {
    hide PacketOf;
    if n > 0 {
      KeptWhole(bufs, keep, n - 1);
    }
  }

  lemma {:induction false} JoinedPackets(a: seq<seq<byte>>, b: seq<seq<byte>>)
    requires WholePackets(a) && WholePackets(b)
    ensures WholePackets(a + b) && PacketsOf(a + b) == PacketsOf(a) + PacketsOf(b)
  {
    hide PacketOf;
  }

  lemma {:induction false} ReceivedStream(r: SymRange, fs: seq<Transmission>, n: nat)
    requires AllTuned(r, fs) && n <= |fs|
    ensures WholePackets(Received(fs, n)) && AllTuned(r, fs[..n])
    ensures PacketsOf(Received(fs, n)) == Stream(FramesOf(r, fs[..n]))
    decreases n
  {
    hide PacketsOf, WholePackets, Tunes;
    if n == 0 {
      NoPackets();
    } else {
      var f := fs[n - 1];
      ReceivedStream(r, fs, n - 1);
      TunedFrame(r, f);
      JoinedPackets(Received(fs, n - 1), Kept(f.packets, f.keep, |f.packets|));
      var xs := FramesOf(r, fs[..n]);
      assert xs[..n - 1] == FramesOf(r, fs[..n - 1]) && xs[n - 1] == FrameOf(r, f);
    }
  }

  lemma NoPackets()
    ensures WholePackets([]) && PacketsOf([]) == []
  {
  }

  lemma {:induction false} TunedFrame(r: SymRange, f: Transmission)
    requires Tunes(r, f)
    ensures |f.packets| <= |f.keep| && RangesDisjoint(r) && r.end[3] < |f.packets| && WholePackets(f.packets)
    ensures WholePackets(Kept(f.packets, f.keep, |f.packets|))
    ensures FrameOf(r, f).ps == PacketsOf(Kept(f.packets, f.keep, |f.packets|))
  {
    hide Transmitted, PacketsOf, RangesDisjoint, WholePackets;
    KeptWhole(f.packets, f.keep, |f.packets|);
  }

  /** Over a whole recording the audio frames come out complete and in order: from packets with the symbols of a
      multiplex, as a transmitter makes them, to the bytes that went into the encoder. */
  lemma {:induction false} RecordedRun(c: Config, g: int, w: int, t: Msc, fs: seq<Transmission>,
                                       frames: int -> seq<byte>, data: int -> seq<byte>)
    requires Configured(c) && c.s.startaddr + c.s.subchsz < CUS_PER_CIF && Proper(c.s) && !Level2a8(c.s)
    requires Strong(SentBlocks(c.s)) && Symmetric(c.m, g, w) && (g - w) * (4 * c.s.subchsz + 1) < 999999
    requires Heard(c.r, fs) && t.cifs == []
    requires Multiplexed(c.s.startaddr, c.s.subchsz, fs, frames) && Broadcast(c.s, frames, data)
    ensures WholePackets(Received(fs, |fs|))
    ensures Run(c, t, PacketsOf(Received(fs, |fs|))).delivered ==
            t.delivered + DataOf(data, if |fs| < 4 then 0 else 4 * |fs| - 15)
  {
    hide RangeOf, Proper, Strong, SentBlocks, Symmetric, Interleaved, Broadcast, AllIntact, Run, AllTuned, FramesOf;
    hide Multiplexed, AllCifs, Stream, RangesDisjoint, PacketsOf, Received, WholePackets, Heard;
    HeardTuned(c, fs);
    MultiplexInterleaved(c, fs, frames);
    FramesIntact(c, fs);
    EndToEnd(c, g, w, t, FramesOf(c.r, fs), frames, data);
    assert fs[..|fs|] == fs;
    ReceivedStream(c.r, fs, |fs|);
  }

  // The recording.

  /** The packets that the loop hands on: those with the marker and a symbol beyond the FIC. */
  predicate Wanted(buf: seq<byte>) {
    |buf| == PACKET_BYTES && buf[0] == 0x0c && buf[1] == 0x62 && buf[2] > 4
  }

  function MscOnly(file: seq<seq<byte>>, n: nat): (bufs: seq<seq<byte>>)
    requires n <= |file|
    ensures WholePackets(bufs)
  {
    if n == 0 then [] else MscOnly(file, n - 1) + (if Wanted(file[n - 1]) then [file[n - 1]] else [])
  }

  lemma {:induction false} NextWanted(c: Config, t: Msc, file: seq<seq<byte>>, k: nat)
    requires Configured(c) && k < |file|
    ensures Run(c, t, PacketsOf(MscOnly(file, k + 1))) ==
            var u := Run(c, t, PacketsOf(MscOnly(file, k)));
            if Wanted(file[k]) then NextState(c, u, PacketOf(file[k])) else u
  {
    hide NextState, PacketOf, Wanted, Configured;
    if Wanted(file[k]) {
      assert |file[k]| == PACKET_BYTES by { WantedSize(file[k]); }
      JoinedPackets(MscOnly(file, k), [file[k]]);
      var ps := PacketsOf(MscOnly(file, k + 1));
      assert ps[..|ps| - 1] == PacketsOf(MscOnly(file, k)) && ps[|ps| - 1] == PacketOf(file[k]);
    } else {
      assert MscOnly(file, k + 1) == MscOnly(file, k);
    }
  }

  lemma {:induction false} WantedSize(buf: seq<byte>)
    requires Wanted(buf)
    ensures |buf| == PACKET_BYTES
  {
  }

  /** The loop of `wfx` over a recording: packets with the marker and a symbol of the MSC go to the assembly. */
  method ReadSymbols(a: Assembler, file: seq<seq<byte>>)
    requires a.Valid() && WholePackets(file)
    modifies a, a.cbuf, a.cbuf.data, a.cbuf.syms
    ensures a.Valid() && (a.cbuf.data == old(a.cbuf.data) || fresh(a.cbuf.data)) && a.cbuf.syms == old(a.cbuf.syms)
    ensures a.State() == Run(a.c, old(a.State()), PacketsOf(MscOnly(file, |file|)))
  {
    hide Run, NextState, PacketOf, PacketsOf, MscOnly, Decodable, Configured, CircularBuffer.Valid, Table49;
    var symbuf := new byte[PACKET_BYTES](_ => 0);
    NothingYet(a.c, a.State(), file);
    for k := 0 to |file|
      invariant a.Valid() && fresh(symbuf)
      invariant (a.cbuf.data == old(a.cbuf.data) || fresh(a.cbuf.data)) && a.cbuf.syms == old(a.cbuf.syms)
      invariant a.State() == Run(a.c, old(a.State()), PacketsOf(MscOnly(file, k)))
    {
      Fread(file[k], symbuf);
      NextWanted(a.c, old(a.State()), file, k);
      if symbuf[0] == 0x0c && symbuf[1] == 0x62 && symbuf[2] > 4 {
        a.Assemble(symbuf);
      }
    }
  }

  lemma {:induction false} NothingYet(c: Config, t: Msc, file: seq<seq<byte>>)
    requires Configured(c)
    ensures Run(c, t, PacketsOf(MscOnly(file, 0))) == t
  {
    hide PacketOf;
  }

  /** A recording of a multiplex is played: the audio frames of one of the stronger profiles come out complete and
      in order. */
  method PlayRecording(a: Assembler, file: seq<seq<byte>>, ghost g: int, ghost w: int, ghost fs: seq<Transmission>,
                       ghost frames: int -> seq<byte>, ghost data: int -> seq<byte>)
    requires a.Valid() && a.cbuf.cifs == [] && WholePackets(file) && MscOnly(file, |file|) == Received(fs, |fs|)
    requires a.c.s.startaddr + a.c.s.subchsz < CUS_PER_CIF && Proper(a.c.s) && !Level2a8(a.c.s)
    requires Strong(SentBlocks(a.c.s)) && Symmetric(a.c.m, g, w) && (g - w) * (4 * a.c.s.subchsz + 1) < 999999
    requires Heard(a.c.r, fs)
    requires Multiplexed(a.c.s.startaddr, a.c.s.subchsz, fs, frames) && Broadcast(a.c.s, frames, data)
    modifies a, a.cbuf, a.cbuf.data, a.cbuf.syms
    ensures a.Valid()
    ensures a.delivered == old(a.delivered) + DataOf(data, if |fs| < 4 then 0 else 4 * |fs| - 15)
  {
    hide Run, PacketsOf, MscOnly, Received, Decodable, Proper, Strong, SentBlocks, Heard, Multiplexed, Broadcast;
    hide Table49, CircularBuffer.Valid, Symmetric;
    RecordedRun(a.c, g, w, a.State(), fs, frames, data);
    ReadSymbols(a, file);
  }
}
