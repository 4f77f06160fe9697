/** From a recording of packets to the ensemble database. */
module FicStream {
  import opened Bits
  import opened Viterbi
  import opened Decoding
  import opened Symbols
  import opened Fic
  import opened FicSender
  import opened Figs
  import opened FigWalk
  import opened FicProcess
  import opened FicAssemble
  import opened FicDatabase
  import opened FicMeaning

  /** One frame on the air: its number, what its twelve blocks say, their bytes, and the three symbols. */
  datatype Frame = Frame(number: nat, cs: seq<Content>, ps: seq<seq<byte>>, s2: Sending, s3: Sending, s4: Sending)

  ghost predicate Sent(f: Frame) {
    hide Holding, OnAir;
    Payloads(f.ps) && Holding(f.ps, f.cs) && OnAir(f.ps, f.s2, f.s3, f.s4)
  }

  /** The packets that the loop hands on: those with the marker and a symbol of the FIC. */
  predicate Wanted(buf: seq<byte>) {
    |buf| == PACKET_BYTES && buf[0] == 0x0c && buf[1] == 0x62 && (buf[2] == 2 || buf[2] == 3 || buf[2] == 4)
  }

  function FicOnly(file: seq<seq<byte>>, n: nat): seq<seq<byte>>
    requires n <= |file|
  {
    hide Wanted;
    if n == 0 then [] else FicOnly(file, n - 1) + (if Wanted(file[n - 1]) then [file[n - 1]] else [])
  }

  /** Symbol 2 of the frame comes first, then symbols 3 and 4 in either order. */
  predicate Triple(f: Frame, a: seq<byte>, b: seq<byte>, c: seq<byte>) {
    hide PacketWith;
    && PacketWith(a, 2, f.number, f.s2.sym)
    && ((PacketWith(b, 3, f.number, f.s3.sym) && PacketWith(c, 4, f.number, f.s4.sym))
        || (PacketWith(b, 4, f.number, f.s4.sym) && PacketWith(c, 3, f.number, f.s3.sym)))
  }

  /** The wanted packets are those of some frames, one after the other. */
  ghost predicate Records(ps: seq<seq<byte>>, run: seq<Frame>) {
    hide Sent, Triple;
    && |ps| == 3 * |run|
    && forall k: nat :: k < |run| ==> Sent(run[k]) && Triple(run[k], ps[3 * k], ps[3 * k + 1], ps[3 * k + 2])
  }

  /** The groups of the first n frames. */
  function Spoken(run: seq<Frame>, n: nat): seq<Group>
    requires n <= |run|
  {
    hide GroupsOf;
    if n == 0 then [] else Spoken(run, n - 1) + GroupsOf(run[n - 1].cs, |run[n - 1].cs|)
  }

  // The three packets of a frame in the history of the receiver.

  function AsPacket(buf: seq<byte>): FicPacket
    requires |buf| == PACKET_BYTES
  {
    FicPacket(buf[2], buf[3], buf[12..396])
  }

  lemma {:induction false} TripleCompletes(h: seq<FicPacket>, f: Frame, a: seq<byte>, b: seq<byte>, c: seq<byte>)
    requires Triple(f, a, b, c)
    ensures |a| == |b| == |c| == PACKET_BYTES && Wanted(a) && Wanted(b) && Wanted(c)
    ensures var h' := h + [AsPacket(a)] + [AsPacket(b)] + [AsPacket(c)];
            && Completes(h', |h|) && h'[|h|].data == f.s2.sym
            && Symbol3(h') == f.s3.sym && Symbol4(h') == f.s4.sym
  {
    var h' := h + [AsPacket(a)] + [AsPacket(b)] + [AsPacket(c)];
    assert h'[|h|] == AsPacket(a) && h'[|h| + 1] == AsPacket(b) && h'[|h| + 2] == AsPacket(c);
  }

  lemma {:induction false} SecondIncomplete(h: seq<FicPacket>, p: FicPacket)
    requires p.sym == 2
    ensures forall i: nat :: !Completes(h + [p], i)
  {
    hide Completes;
    AfterSecond(h, p);
    assert !Complete(h + [p]);
  }

  lemma {:induction false} PairIncomplete(h: seq<FicPacket>, p: FicPacket, q: FicPacket)
    requires p.sym == 2 && (q.sym == 3 || q.sym == 4)
    ensures forall i: nat :: !Completes(h + [p] + [q], i)
  {
    hide Completes, OnlyAfter;
    var h' := h + [p];
    AfterSecond(h, p);
    AfterOpen(h', q, |h|);
    assert !Complete(h' + [q]);
  }

  /** The receiver after c of the packets: in the history, the packets of the frame at hand follow h. */
  predicate Reached(history: seq<FicPacket>, h: seq<FicPacket>, ps: seq<seq<byte>>, c: nat)
    requires c <= |ps| && WholePackets(ps)
  {
    hide AsPacket;
    history == if c % 3 == 0 then h
               else if c % 3 == 1 then h + [AsPacket(ps[c - 1])]
               else h + [AsPacket(ps[c - 2])] + [AsPacket(ps[c - 1])]
  }

  lemma {:induction false} RecordedPackets(ps: seq<seq<byte>>, run: seq<Frame>)
    requires Records(ps, run)
    ensures WholePackets(ps) && |ps| / 3 == |run|
  {
    hide Sent, Triple, Wanted;
    forall k | 0 <= k < |ps| ensures |ps[k]| == PACKET_BYTES {
      var i := k / 3;
      TripleCompletes([], run[i], ps[3 * i], ps[3 * i + 1], ps[3 * i + 2]);
    }
  }

  /** The packets of frame c / 3 are those from the next lower multiple of three on. */
  lemma {:induction false} LastOfTriple(ps: seq<seq<byte>>, run: seq<Frame>, c: nat)
    requires Records(ps, run) && c < |ps|
    ensures c / 3 < |run|
    ensures c % 3 == 0 ==> c + 2 < |ps| && Triple(run[c / 3], ps[c], ps[c + 1], ps[c + 2])
    ensures c % 3 == 1 ==> c + 1 < |ps| && Triple(run[c / 3], ps[c - 1], ps[c], ps[c + 1])
    ensures c % 3 == 2 ==> Sent(run[c / 3]) && Triple(run[c / 3], ps[c - 2], ps[c - 1], ps[c])
  {
    hide Sent, Triple;
    var i := c / 3;
    assert i < |run| && Triple(run[i], ps[3 * i], ps[3 * i + 1], ps[3 * i + 2]);
  }

  /** The receiver holds frame f, after the packets h. */
  predicate Got(history: seq<FicPacket>, h: seq<FicPacket>, f: Frame) {
    hide Completes;
    && |h| < |history| && |history| >= 2 && Completes(history, |h|)
    && history[|h|].data == f.s2.sym && Symbol3(history) == f.s3.sym && Symbol4(history) == f.s4.sym
  }

  /** The last packet of a frame completes it. */
  lemma {:induction false} ThirdPacket(history: seq<FicPacket>, h: seq<FicPacket>,
                                       ps: seq<seq<byte>>, run: seq<Frame>, c: nat)
    requires Records(ps, run) && WholePackets(ps) && c < |ps| && c % 3 == 2 && Reached(history, h, ps, c)
    ensures c / 3 < |run| && Got(history + [AsPacket(ps[c])], h, run[c / 3]) && Sent(run[c / 3])
  {
    hide Sent, Triple, Completes, Records;
    LastOfTriple(ps, run, c);
    TripleCompletes(h, run[c / 3], ps[c - 2], ps[c - 1], ps[c]);
  }

  /** The others complete nothing. */
  lemma {:induction false} EarlierPacket(history: seq<FicPacket>, h: seq<FicPacket>,
                                         ps: seq<seq<byte>>, run: seq<Frame>, c: nat)
    requires Records(ps, run) && WholePackets(ps) && c < |ps| && c % 3 != 2 && Reached(history, h, ps, c)
    ensures forall i: nat :: !Completes(history + [AsPacket(ps[c])], i)
  {
    hide Sent, Triple, Completes, Records;
    LastOfTriple(ps, run, c);
    if c % 3 == 0 {
      TripleSymbols(run[c / 3], ps[c], ps[c + 1], ps[c + 2]);
      SecondIncomplete(h, AsPacket(ps[c]));
    } else {
      TripleSymbols(run[c / 3], ps[c - 1], ps[c], ps[c + 1]);
      PairIncomplete(h, AsPacket(ps[c - 1]), AsPacket(ps[c]));
    }
  }

  lemma {:induction false} ReachedNext(history: seq<FicPacket>, h: seq<FicPacket>, ps: seq<seq<byte>>, c: nat)
    requires WholePackets(ps) && c < |ps| && Reached(history, h, ps, c)
    ensures var h' := history + [AsPacket(ps[c])]; Reached(h', if c % 3 == 2 then h' else h, ps, c + 1)
  {
    hide AsPacket;
  }

  lemma {:induction false} TripleSymbols(f: Frame, a: seq<byte>, b: seq<byte>, c: seq<byte>)
    requires Triple(f, a, b, c)
    ensures |a| == |b| == PACKET_BYTES && a[2] == 2 && (b[2] == 3 || b[2] == 4)
  {
  }

  /** A completed frame adds its groups to those heard before. */
  lemma {:induction false} FrameHeard(m: Mettab, g: int, w: int, f: Frame, t0: Ens, gs: seq<Group>,
                                      before: seq<byte>, after: seq<byte>, fibs: nat)
    requires Symmetric(m, g, w) && Sent(f) && |before| == 360
    requires |f.s2.sym| == |f.s3.sym| == |f.s4.sym| == SYMBOL_BYTES
    requires FicOutput(m, f.s2.sym, f.s3.sym, f.s4.sym, before, after, fibs)
    ensures ApplyAll(ApplyAll(t0, GroupsEvents(gs)), FibsWalk(after, fibs).evs) ==
            ApplyAll(t0, GroupsEvents(gs + GroupsOf(f.cs, |f.cs|)))
  {
    hide Payloads, Holding, OnAir, FicOutput, Understood, ApplyAll, FibsWalk, GroupsEvents, GroupsOf, AllPrintable;
    DatabaseRoundTrip(m, g, w, f.ps, f.cs, f.s2, f.s3, f.s4, before, after, fibs);
    FrameHeld(t0, gs, f.ps, f.cs, after, fibs);
  }

  /** The database t is what t0 becomes by the groups gs and those of the first n frames. */
  ghost predicate Heard(t: Ens, t0: Ens, gs: seq<Group>, run: seq<Frame>, n: nat) {
    hide ApplyAll, GroupsEvents, Spoken;
    n <= |run| && t == ApplyAll(t0, GroupsEvents(gs + Spoken(run, n)))
  }

  lemma {:induction false} HeardNext(m: Mettab, g: int, w: int, t: Ens, t0: Ens, gs: seq<Group>,
                                     run: seq<Frame>, n: nat, h: seq<FicPacket>, k: nat,
                                     before: seq<byte>, after: seq<byte>, fibs: nat)
    requires Symmetric(m, g, w) && n < |run| && Heard(t, t0, gs, run, n) && Sent(run[n])
    requires k < |h| && Processed(m, h, before, after, fibs) && Got(h, h[..k], run[n])
    ensures Heard(ApplyAll(t, FibsWalk(after, fibs).evs), t0, gs, run, n + 1)
  {
    hide Sent, Completes, FicOutput, ApplyAll, FibsWalk, GroupsEvents, GroupsOf;
    var f := run[n];
    var more := GroupsOf(f.cs, |f.cs|);
    FrameHeard(m, g, w, f, t0, gs + Spoken(run, n), before, after, fibs);
    assert gs + Spoken(run, n) + more == gs + (Spoken(run, n) + more);
  }

  /** The receiver and its database after c of the packets. */
  ghost predicate Underway(r: FicReceiver, h: seq<FicPacket>, ps: seq<seq<byte>>, c: nat,
                           t0: Ens, gs: seq<Group>, run: seq<Frame>)
    reads r, r.einf, r.einf.list, r.einf.schan
  {
    hide Heard;
    && c <= |ps| && WholePackets(ps) && Reached(r.history, h, ps, c)
    && Heard(StateOf(r.einf), t0, gs, run, c / 3)
  }

  /** What `Assemble` promises of a packet. */
  ghost predicate Assembled(m: Mettab, h: seq<FicPacket>, t: Ens, t': Ens, processed: bool,
                            before: seq<byte>, after: seq<byte>, fibs: nat) {
    hide Processed, FibsWalk, ApplyAll, Completes;
    && (processed <==> exists i: nat :: Completes(h, i))
    && (if processed then Processed(m, h, before, after, fibs) && t' == ApplyAll(t, FibsWalk(after, fibs).evs)
        else t' == t)
  }

  /** The packet that completes a frame. */
  lemma {:induction false} AdvanceFrame(m: Mettab, g: int, w: int, history: seq<FicPacket>, h: seq<FicPacket>,
                                        ps: seq<seq<byte>>, c: nat, t0: Ens, gs: seq<Group>, run: seq<Frame>,
                                        t: Ens, t': Ens, processed: bool,
                                        before: seq<byte>, after: seq<byte>, fibs: nat)
    requires WholePackets(ps) && Records(ps, run) && c < |ps| && c % 3 == 2 && Reached(history, h, ps, c)
    requires Symmetric(m, g, w) && Heard(t, t0, gs, run, c / 3)
    requires Assembled(m, history + [AsPacket(ps[c])], t, t', processed, before, after, fibs)
    ensures Heard(t', t0, gs, run, c / 3 + 1)
  {
    hide Records, Heard, Processed, Completes, FibsWalk, ApplyAll, Reached, AsPacket, Got, Symmetric, Sent;
    var h' := history + [AsPacket(ps[c])];
    ThirdPacket(history, h, ps, run, c);
    HeadOf(history, h, ps, c, AsPacket(ps[c]));
    GotCompletes(h', h, run[c / 3]);
    HeardNext(m, g, w, t, t0, gs, run, c / 3, h', |h|, before, after, fibs);
  }

  lemma {:induction false} GotCompletes(history: seq<FicPacket>, h: seq<FicPacket>, f: Frame)
    requires Got(history, h, f)
    ensures |h| < |history| && Completes(history, |h|)
  {
    hide Completes;
  }

  /** A packet that does not. */
  lemma {:induction false} AdvancePacket(m: Mettab, history: seq<FicPacket>, h: seq<FicPacket>,
                                         ps: seq<seq<byte>>, c: nat, run: seq<Frame>,
                                         t: Ens, t': Ens, processed: bool,
                                         before: seq<byte>, after: seq<byte>, fibs: nat)
    requires WholePackets(ps) && Records(ps, run) && c < |ps| && c % 3 != 2 && Reached(history, h, ps, c)
    requires Assembled(m, history + [AsPacket(ps[c])], t, t', processed, before, after, fibs)
    ensures t' == t
  {
    hide Records, Processed, Completes, FibsWalk, ApplyAll, Reached, AsPacket;
    EarlierPacket(history, h, ps, run, c);
  }

  lemma {:induction false} HeadOf(history: seq<FicPacket>, h: seq<FicPacket>, ps: seq<seq<byte>>, c: nat, p: FicPacket)
    requires WholePackets(ps) && c <= |ps| && Reached(history, h, ps, c)
    ensures |h| <= |history| && (history + [p])[..|h|] == h
  {
    hide AsPacket;
  }

  lemma {:induction false} NextThird(c: nat)
    ensures (c + 1) / 3 == if c % 3 == 2 then c / 3 + 1 else c / 3
  {
  }

  /** One packet of the run goes to the receiver. */
  method TakePacket(r: FicReceiver, pktbuf: array<byte>, ghost g: int, ghost w: int, ghost h: seq<FicPacket>,
                    ghost ps: seq<seq<byte>>, ghost c: nat, ghost t0: Ens, ghost gs: seq<Group>, ghost run: seq<Frame>)
    returns (ghost h': seq<FicPacket>)
    requires r.Valid() && pktbuf.Length == PACKET_BYTES && Wanted(pktbuf[..])
    requires pktbuf != r.ficsyms2 && pktbuf != r.ficsyms3 && pktbuf != r.ficsyms4 && pktbuf != r.rawfibs
    requires Symmetric(r.mettab, g, w) && Records(ps, run) && c < |ps| && ps[c] == pktbuf[..]
    requires Underway(r, h, ps, c, t0, gs, run)
    modifies r, r.ficsyms2, r.ficsyms3, r.ficsyms4, r.rawfibs, r.einf, r.einf.list, r.einf.schan
    ensures r.Valid() && Grown(r.einf) && Underway(r, h', ps, c + 1, t0, gs, run)
  {
    hide Records, Heard, Processed, FicReceiver.Valid, Completes, FibsWalk, ApplyAll, Reached;
    ghost var before, t, raw := r.history, StateOf(r.einf), r.rawfibs[..];
    assert pktbuf[..][12..396] == pktbuf[12..396];
    var processed, fibs, decoded := r.Assemble(pktbuf);
    assert r.history == before + [AsPacket(ps[c])];
    ReachedNext(before, h, ps, c);
    if c % 3 == 2 {
      AdvanceFrame(r.mettab, g, w, before, h, ps, c, t0, gs, run, t, StateOf(r.einf), processed, raw, decoded, fibs);
    } else {
      AdvancePacket(r.mettab, before, h, ps, c, run, t, StateOf(r.einf), processed, raw, decoded, fibs);
    }
    NextThird(c);
    h' := if c % 3 == 2 then r.history else h;
  }

  lemma {:induction false} OnlyPrefix(file: seq<seq<byte>>, k: nat, n: nat)
    requires k <= n <= |file|
    ensures FicOnly(file, k) <= FicOnly(file, n)
    ensures k < n && Wanted(file[k]) ==>
              |FicOnly(file, k)| < |FicOnly(file, n)| && FicOnly(file, n)[|FicOnly(file, k)|] == file[k]
    decreases n
  {
    hide Wanted;
    if k < n {
      OnlyPrefix(file, k, n - 1);
    }
  }

  lemma {:induction false} StartUnderway(t: Ens, t0: Ens, gs: seq<Group>, run: seq<Frame>,
                                         file: seq<seq<byte>>, h: seq<FicPacket>, ps: seq<seq<byte>>)
    requires t == ApplyAll(t0, GroupsEvents(gs)) && WholePackets(ps)
    ensures FicOnly(file, 0) == [] && Heard(t, t0, gs, run, 0) && Reached(h, h, ps, 0)
  {
    hide ApplyAll, GroupsEvents;
    assert gs + Spoken(run, 0) == gs;
  }

  lemma {:induction false} SpokenPrintable(ps: seq<seq<byte>>, run: seq<Frame>, n: nat)
    requires Records(ps, run) && n <= |run|
    ensures AllPrintable(Spoken(run, n))
    decreases n
  {
    hide AllPrintable, Triple, Holding, OnAir;
    if n == 0 {
      NoGroups();
    } else {
      SpokenPrintable(ps, run, n - 1);
      var f := run[n - 1];
      assert Sent(f);
      HeldPrintable(f.ps, f.cs, |f.cs|);
      AppendPrintable(Spoken(run, n - 1), GroupsOf(f.cs, |f.cs|));
    }
  }

  /** The database that was heard holds what was said. */
  lemma {:induction false} HeardHeld(t: Ens, t0: Ens, gs: seq<Group>, ps: seq<seq<byte>>, run: seq<Frame>)
    requires Empty(t0) && AllPrintable(gs) && Records(ps, run) && Heard(t, t0, gs, run, |run|)
    ensures t == ApplyAll(t0, GroupsEvents(gs + Spoken(run, |run|))) && Holds(t, gs + Spoken(run, |run|), t0.eid)
  {
    hide AllPrintable, Records, ApplyAll, GroupsEvents, Spoken, Holds, Empty;
    SpokenPrintable(ps, run, |run|);
    AppendPrintable(gs, Spoken(run, |run|));
    GroupsHeld(t0, gs + Spoken(run, |run|));
  }

  /** The loop of `wfx` over a recording: packets with the marker and a symbol of the FIC go to the receiver, and
      the database comes to hold all that the recorded frames say. */
  method ReadPackets(r: FicReceiver, file: seq<seq<byte>>, ghost g: int, ghost w: int,
                     ghost t0: Ens, ghost gs: seq<Group>, ghost run: seq<Frame>)
    requires r.Valid() && WholePackets(file) && Symmetric(r.mettab, g, w)
    requires Records(FicOnly(file, |file|), run)
    requires Empty(t0) && AllPrintable(gs) && StateOf(r.einf) == ApplyAll(t0, GroupsEvents(gs))
    modifies r, r.ficsyms2, r.ficsyms3, r.ficsyms4, r.rawfibs, r.einf, r.einf.list, r.einf.schan
    ensures r.Valid() && Grown(r.einf)
    ensures StateOf(r.einf) == ApplyAll(t0, GroupsEvents(gs + Spoken(run, |run|)))
    ensures Holds(StateOf(r.einf), gs + Spoken(run, |run|), t0.eid)
  {
    hide FicReceiver.Valid, Records, Heard, Reached, Holds, AllPrintable, ApplyAll, GroupsEvents, Spoken, Empty;
    hide FicOnly;
    ghost var ps, h := FicOnly(file, |file|), r.history;
    RecordedPackets(ps, run);
    StartUnderway(StateOf(r.einf), t0, gs, run, file, h, ps);
    var pktbuf := new byte[PACKET_BYTES](_ => 0);
    for k := 0 to |file|
      invariant r.Valid() && Grown(r.einf) && fresh(pktbuf)
      invariant |FicOnly(file, k)| <= |ps| && Underway(r, h, ps, |FicOnly(file, k)|, t0, gs, run)
    {
      Fread(file[k], pktbuf);
      OnlyPrefix(file, k, |file|);
      OnlyPrefix(file, k + 1, |file|);
      NextOnly(file, k);
      if pktbuf[0] == 0x0c && pktbuf[1] == 0x62 && (pktbuf[2] == 2 || pktbuf[2] == 3 || pktbuf[2] == 4) {
        h := TakePacket(r, pktbuf, g, w, h, ps, |FicOnly(file, k)|, t0, gs, run);
      }
    }
    HeardHeld(StateOf(r.einf), t0, gs, ps, run);
  }

  lemma {:induction false} NextOnly(file: seq<seq<byte>>, k: nat)
    requires k < |file|
    ensures |FicOnly(file, k + 1)| == |FicOnly(file, k)| + if Wanted(file[k]) then 1 else 0
  {
    hide Wanted;
  }
}
