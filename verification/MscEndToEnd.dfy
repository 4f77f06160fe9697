/** From the symbols of a run to the bytes that were sent. */
module MscEndToEnd {
  import opened Bits
  import opened Viterbi
  import opened Decoding
  import opened Tables
  import opened Mixing
  import opened SymbolRange
  import opened MscBuffer
  import opened MscDecode
  import opened MscSender
  import opened MscAssemble
  import opened MscRun

  predicate AreBits(s: seq<byte>) {
    forall i :: 0 <= i < |s| ==> s[i] <= 1
  }

  /** For a full buffer whose CIFs interleave coded frames, the data of frame R - 16 is delivered if frames R
      and R - 16 agree on every sixteenth bit. */
  lemma {:induction false} AgreeingFrames(c: Config, g: int, w: int, h: seq<seq<byte>>,
                                          frames: int -> seq<byte>, data: seq<byte>)
    requires Configured(c) && Proper(c.s) && !Level2a8(c.s) && Symmetric(c.m, g, w) && |h| >= 16
    requires Interleaved(h, c.r.startcu, c.s.subchsz, c.r.numsyms, frames)
    requires |data| == 3 * c.s.bitrate && |frames(|h| - 17)| == 64 * c.s.subchsz
    requires SentLogicalFrame(c.s, data, frames(|h| - 17))
    requires forall i :: 0 <= i < 64 * c.s.subchsz && i % 16 == 0 ==>
               |frames(|h| - 1)| > i && frames(|h| - 1)[i] == frames(|h| - 17)[i]
    ensures Output(c, h) == data
  {
    hide Proper, FrameBytes, Decodable, SentLogicalFrame, Deinterleaved;
    FrameRestoredIff(h, c.r.startcu, c.s.subchsz, c.r.numsyms, frames);
    FrameRoundTrip(c.m, g, w, c.s, data, frames(|h| - 17));
  }

  lemma {:induction false} StraysSame(a: seq<bit>, b: seq<bit>, b': seq<bit>, n: nat)
    requires n <= |a| && n <= |b| && n <= |b'| && forall i :: 0 <= i < n && i % 16 != 0 ==> b[i] == b'[i]
    ensures Strays(a, b, n) == Strays(a, b', n)
    decreases n
  {
    if n > 0 {
      StraysSame(a, b, b', n - 1);
    }
  }

  /** A coded frame as it was sent, but for one bit at most and, as far as this goes, any of every
      sixteenth. */
  ghost predicate NearlySent(s: Subch, data: seq<byte>, lf: seq<byte>)
    requires Proper(s)
  {
    hide StrayBits, Proper;
    |data| == 3 * s.bitrate && |lf| == 64 * s.subchsz && AreBits(lf) && StrayBits(s, data, lf) <= 1
  }

  /** What the deinterleaver reads agrees with frame R - 16 but for every sixteenth bit. */
  lemma {:induction false} MixedBits(h: seq<seq<byte>>, startcu: nat, subchsz: nat, numsyms: nat,
                                     frames: int -> seq<byte>, lf: seq<byte>)
    requires |h| >= 16 && Interleaved(h, startcu, subchsz, numsyms, frames)
    requires lf == Deinterleaved(h, startcu, subchsz, numsyms)
    requires AreBits(frames(|h| - 17)) && AreBits(frames(|h| - 1))
    ensures |lf| == |frames(|h| - 17)| && AreBits(lf)
    ensures forall i :: 0 <= i < |lf| && i % 16 != 0 ==> lf[i] == frames(|h| - 17)[i]
  {
    hide Deinterleaved;
    forall i | 0 <= i < |lf| ensures lf[i] == (if i % 16 == 0 then frames(|h| - 1) else frames(|h| - 17))[i] {
      DeinterleavedMixes(h, startcu, subchsz, numsyms, frames, i);
    }
  }

  lemma {:induction false} StaysNearlySent(s: Subch, data: seq<byte>, sent: seq<byte>, lf: seq<byte>)
    requires Proper(s) && NearlySent(s, data, sent) && |lf| == |sent| && AreBits(lf)
    requires forall i :: 0 <= i < |lf| && i % 16 != 0 ==> lf[i] == sent[i]
    ensures NearlySent(s, data, lf)
  {
    hide Proper, SentBits, Strays;
    StraysSame(SentBits(s, data), lf, sent, |SentBits(s, data)|);
  }

  lemma {:induction false} NearlySentDecoded(m: Mettab, g: int, w: int, s: Subch, data: seq<byte>, lf: seq<byte>)
    requires Proper(s) && !Level2a8(s) && Strong(SentBlocks(s))
    requires Symmetric(m, g, w) && (g - w) * (4 * s.subchsz + 1) < 999999 && NearlySent(s, data, lf)
    ensures Decodable(s) && |lf| == 64 * s.subchsz && FrameBytes(m, s, lf) == data
  {
    hide Proper, FrameBytes, Decodable, StrayBits, Strong, SentBlocks;
    var b: seq<bit> := lf;
    FrameMixed(m, g, w, s, data, b);
  }

  /** With the stronger profiles the data of frame R - 16 is delivered always: the decoder makes up for all
      the bits that the deinterleaver takes from frame R, whatever they are. */
  lemma {:induction false} MixedFrames(c: Config, g: int, w: int, h: seq<seq<byte>>, frames: int -> seq<byte>,
                                       data: seq<byte>)
    requires Configured(c) && Proper(c.s) && !Level2a8(c.s) && Strong(SentBlocks(c.s))
    requires Symmetric(c.m, g, w) && (g - w) * (4 * c.s.subchsz + 1) < 999999 && |h| >= 16
    requires Interleaved(h, c.r.startcu, c.s.subchsz, c.r.numsyms, frames)
    requires NearlySent(c.s, data, frames(|h| - 17)) && AreBits(frames(|h| - 1))
    ensures Output(c, h) == data
  {
    hide Proper, FrameBytes, Decodable, StrayBits, AreBits, Strong, SentBlocks, Deinterleaved;
    RangeHolds(c.r, c.s.startaddr, c.s.subchsz);
    var lf := Deinterleaved(h, c.r.startcu, c.s.subchsz, c.r.numsyms);
    MixedBits(h, c.r.startcu, c.s.subchsz, c.r.numsyms, frames, lf);
    StaysNearlySent(c.s, data, frames(|h| - 17), lf);
    NearlySentDecoded(c.m, g, w, c.s, data, lf);
  }

  /** Every logical frame is the coded frame of its data, but for one bit at most. */
  ghost predicate Broadcast(s: Subch, frames: int -> seq<byte>, data: int -> seq<byte>)
    requires Proper(s)
  {
    hide NearlySent, Proper;
    forall n :: NearlySent(s, data(n), frames(n))
  }

  lemma {:induction false} BroadcastAt(s: Subch, frames: int -> seq<byte>, data: int -> seq<byte>, n: int)
    requires Proper(s) && Broadcast(s, frames, data)
    ensures NearlySent(s, data(n), frames(n)) && AreBits(frames(n))
  {
    hide Proper, StrayBits, AreBits;
    assert NearlySent(s, data(n), frames(n));
  }

  lemma {:induction false} InterleavedPrefix(h: seq<seq<byte>>, startcu: nat, subchsz: nat, numsyms: nat,
                                             frames: int -> seq<byte>, n: nat)
    requires Interleaved(h, startcu, subchsz, numsyms, frames) && n <= |h|
    ensures Interleaved(h[..n], startcu, subchsz, numsyms, frames)
  {
    hide Delay;
  }

  /** The data of k consecutive frames, the first one with number -1. */
  function DataOf(data: int -> seq<byte>, k: nat): (ds: seq<seq<byte>>)
    ensures |ds| == k
  {
    if k == 0 then [] else DataOf(data, k - 1) + [data(k - 2)]
  }

  lemma {:induction false} DeliveriesAreData(c: Config, g: int, w: int, h: seq<seq<byte>>,
                                             frames: int -> seq<byte>, data: int -> seq<byte>, n: nat)
    requires Configured(c) && Proper(c.s) && !Level2a8(c.s) && Strong(SentBlocks(c.s)) && n <= |h|
    requires Symmetric(c.m, g, w) && (g - w) * (4 * c.s.subchsz + 1) < 999999
    requires Interleaved(h, c.r.startcu, c.s.subchsz, c.r.numsyms, frames) && Broadcast(c.s, frames, data)
    ensures Deliveries(c, h, n) == DataOf(data, if n < 15 then 0 else n - 15)
    decreases n
  {
    hide RangeOf, Proper, Strong, SentBlocks, Symmetric, Interleaved, NearlySent, Broadcast, Output, AreBits;
    if n >= 16 {
      DeliveriesAreData(c, g, w, h, frames, data, n - 1);
      InterleavedPrefix(h, c.r.startcu, c.s.subchsz, c.r.numsyms, frames, n);
      BroadcastAt(c.s, frames, data, n - 17);
      BroadcastAt(c.s, frames, data, n - 1);
      MixedFrames(c, g, w, h[..n], frames, data(n - 17));
    }
  }

  /** Over a whole run with one of the stronger profiles, the audio frames come out complete and in order:
      none is lost, repeated or damaged, although every one of them is decoded from a mixture of two
      frames. */
  lemma {:induction false} EndToEnd(c: Config, g: int, w: int, t: Msc, fs: seq<Frame>,
                                    frames: int -> seq<byte>, data: int -> seq<byte>)
    requires Configured(c) && c.s.startaddr + c.s.subchsz < CUS_PER_CIF && Proper(c.s) && !Level2a8(c.s)
    requires Strong(SentBlocks(c.s)) && Symmetric(c.m, g, w) && (g - w) * (4 * c.s.subchsz + 1) < 999999
    requires AllIntact(c.r, fs) && t.cifs == []
    requires Interleaved(AllCifs(fs), c.r.startcu, c.s.subchsz, c.r.numsyms, frames) && Broadcast(c.s, frames, data)
    ensures Run(c, t, Stream(fs)).delivered == t.delivered + DataOf(data, if |fs| < 4 then 0 else 4 * |fs| - 15)
  {
    hide Configured, Proper, Strong, SentBlocks, Symmetric, Interleaved, Broadcast, AllIntact, Run, Deliveries;
    IntactRun(c, t, fs);
    DeliveriesAreData(c, g, w, AllCifs(fs), frames, data, 4 * |fs|);
  }
}
