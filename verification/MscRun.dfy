/** Whole runs of the MSC assembly over streams of symbols. */
module MscRun {
  import opened Bits
  import opened SymbolRange
  import opened MscBuffer
  import opened MscAssemble

  function Run(c: Config, t: Msc, ps: seq<Packet>): Msc
    requires Configured(c)
    decreases |ps|
  {
    hide *;
    if ps == [] then t else NextState(c, Run(c, t, ps[..|ps| - 1]), ps[|ps| - 1])
  }

  lemma {:induction false} RunAppend(c: Config, t: Msc, ps: seq<Packet>, qs: seq<Packet>)
    requires Configured(c)
    ensures Run(c, t, ps + qs) == Run(c, Run(c, t, ps), qs)
    decreases |qs|
  {
    hide NextState, Configured;
    if qs == [] {
      assert ps + qs == ps;
    } else {
      var n := |qs| - 1;
      RunAppend(c, t, ps, qs[..n]);
      assert (ps + qs)[..|ps + qs| - 1] == ps + qs[..n];
    }
  }

  /** The symbol belongs to the sub-channel in one of the four CIFs. */
  predicate InRange(r: SymRange, sym: nat, j: nat)
    requires |r.start| == |r.end| == 4 && j < 4
  {
    r.start[j] <= sym <= r.end[j]
  }

  predicate Relevant(r: SymRange, sym: nat)
    requires |r.start| == |r.end| == 4
  {
    InRange(r, sym, 0) || InRange(r, sym, 1) || InRange(r, sym, 2) || InRange(r, sym, 3)
  }

  /** Times that a symbol is stored. */
  function Writes(r: SymRange, sym: nat): nat
    requires |r.start| == |r.end| == 4
  {
    if sym == r.start[0] then 1 else Hits(r, sym, 7)
  }

  lemma {:induction false} SevenHits(r: SymRange, sym: nat)
    requires |r.start| == |r.end| == 4
    ensures Hits(r, sym, 7) == Flag(Hit(r, sym, 0)) + Flag(Hit(r, sym, 1)) + Flag(Hit(r, sym, 2)) + Flag(Hit(r, sym, 3))
                             + Flag(Hit(r, sym, 4)) + Flag(Hit(r, sym, 5)) + Flag(Hit(r, sym, 6))
  {
    hide Hit;
    assert Hits(r, sym, 1) == Flag(Hit(r, sym, 0));
    assert Hits(r, sym, 3) == Hits(r, sym, 1) + Flag(Hit(r, sym, 1)) + Flag(Hit(r, sym, 2));
    assert Hits(r, sym, 5) == Hits(r, sym, 3) + Flag(Hit(r, sym, 3)) + Flag(Hit(r, sym, 4));
  }

  /** A symbol is stored once for every range that it lies in. */
  lemma {:induction false} WritesOfRanges(r: SymRange, sym: nat)
    requires |r.start| == |r.end| == 4 && r.start[0] < r.start[1] < r.start[2] < r.start[3]
    requires forall j :: 0 <= j < 4 ==> r.start[j] <= r.end[j]
    ensures Writes(r, sym) == Flag(InRange(r, sym, 0)) + Flag(InRange(r, sym, 1))
                            + Flag(InRange(r, sym, 2)) + Flag(InRange(r, sym, 3))
  {
    SevenHits(r, sym);
  }

  /** Symbols stored among those with numbers below n. */
  function WritesBelow(r: SymRange, n: nat): nat
    requires |r.start| == |r.end| == 4
  {
    if n == 0 then 0 else WritesBelow(r, n - 1) + Writes(r, n - 1)
  }

  /** Numbers below n in a range. */
  function CountBelow(n: nat, a: nat, b: nat): nat
    requires a <= b
  {
    if n <= a then 0 else if n > b then b - a + 1 else n - a
  }

  lemma {:induction false} WritesCount(r: SymRange, n: nat)
    requires |r.start| == |r.end| == 4 && r.start[0] < r.start[1] < r.start[2] < r.start[3]
    requires forall j :: 0 <= j < 4 ==> r.start[j] <= r.end[j]
    ensures WritesBelow(r, n) == CountBelow(n, r.start[0], r.end[0]) + CountBelow(n, r.start[1], r.end[1])
                               + CountBelow(n, r.start[2], r.end[2]) + CountBelow(n, r.start[3], r.end[3])
    decreases n
  {
    hide Writes, CountBelow;
    NoneBelow(r.start[0], r.end[0]);
    NoneBelow(r.start[1], r.end[1]);
    NoneBelow(r.start[2], r.end[2]);
    NoneBelow(r.start[3], r.end[3]);
    if n > 0 {
      WritesCount(r, n - 1);
      WritesOfRanges(r, n - 1);
      NextBelow(n - 1, r.start[0], r.end[0]);
      NextBelow(n - 1, r.start[1], r.end[1]);
      NextBelow(n - 1, r.start[2], r.end[2]);
      NextBelow(n - 1, r.start[3], r.end[3]);
    }
  }

  lemma {:induction false} NoneBelow(a: nat, b: nat)
    requires a <= b
    ensures CountBelow(0, a, b) == 0
  {
  }

  lemma {:induction false} NextBelow(n: nat, a: nat, b: nat)
    requires a <= b
    ensures CountBelow(n + 1, a, b) == CountBelow(n, a, b) + Flag(a <= n <= b)
  {
  }

  /** Of the symbols up to 76, four CIFs' worth are stored exactly when the sub-channel ends before the
      last capacity unit; otherwise one is missing. */
  lemma {:induction false} FrameWrites(r: SymRange, startaddr: nat, subchsz: nat)
    requires RangeOf(r, startaddr, subchsz) && subchsz >= 1 && startaddr + subchsz <= CUS_PER_CIF
    ensures WritesBelow(r, LAST_SYMBOL + 1)
         == if startaddr + subchsz < CUS_PER_CIF then 4 * r.numsyms else 4 * r.numsyms - 1
  {
    hide WritesBelow;
    RangeOrder(r, startaddr, subchsz);
    RangesFit(r, startaddr, subchsz);
    WritesCount(r, LAST_SYMBOL + 1);
  }

  lemma {:induction false} RangeOrder(r: SymRange, startaddr: nat, subchsz: nat)
    requires RangeOf(r, startaddr, subchsz)
    ensures r.start[0] < r.start[1] < r.start[2] < r.start[3]
    ensures forall j :: 0 <= j < 4 ==> r.start[j] <= r.end[j] && r.end[j] - r.start[j] + 1 == r.numsyms
    ensures forall j :: 0 <= j < 3 ==> r.end[j + 1] == r.end[j] + 18
  {
  }

  // Intact frames: what reaches the buffer, and what comes out.

  /** The packets that matter, in order. */
  function SelectedPackets(r: SymRange, ps: seq<Packet>): seq<Packet>
    requires |r.start| == |r.end| == 4
  {
    if ps == [] then []
    else SelectedPackets(r, ps[..|ps| - 1]) + (if Relevant(r, ps[|ps| - 1].sym) then [ps[|ps| - 1]] else [])
  }

  /** Ranges that lie one after the other. */
  predicate RangesDisjoint(r: SymRange) {
    && |r.start| == |r.end| == 4 && r.numsyms >= 1
    && (forall j :: 0 <= j < 4 ==> r.start[j] + r.numsyms == r.end[j] + 1)
    && r.end[0] < r.start[1] && r.end[1] < r.start[2] && r.end[2] < r.start[3]
  }

  lemma {:induction false} DisjointRanges(c: Config)
    requires Configured(c) && c.s.startaddr + c.s.subchsz < CUS_PER_CIF
    ensures RangesDisjoint(c.r)
  {
    RangesFit(c.r, c.s.startaddr, c.s.subchsz);
    RangeOrder(c.r, c.s.startaddr, c.s.subchsz);
  }

  lemma {:induction false} WritesOnce(r: SymRange, sym: nat)
    requires RangesDisjoint(r)
    ensures Writes(r, sym) == Flag(Relevant(r, sym))
  {
    hide Writes;
    assert forall j :: 0 <= j < 4 ==> r.start[j] <= r.end[j];
    WritesOfRanges(r, sym);
  }

  /** A packet outside the ranges changes nothing. */
  lemma {:induction false} Ignored(c: Config, t: Msc, p: Packet)
    requires Configured(c) && RangesDisjoint(c.r) && !Relevant(c.r, p.sym)
    ensures NextState(c, t, p) == t
  {
    hide Configured, Hits, Output, Relevant;
    WritesOnce(c.r, p.sym);
  }

  /** A packet within a range is stored if its frame number is the current one or it starts a frame. */
  lemma {:induction false} StoredOnce(c: Config, t: Msc, p: Packet)
    requires Configured(c) && RangesDisjoint(c.r) && Relevant(c.r, p.sym)
        && (p.sym == c.r.start[0] || p.frame == t.frame)
    ensures NextState(c, t, p) == Deliver(c, Extended(t.cifs, p.bits, c.r.numsyms), p.frame, t.delivered, true)
  {
    hide Configured, Hits, Output, Relevant, Extended, Deliver;
    WritesOnce(c.r, p.sym);
    AfterOne(t.cifs, p.bits, c.r.numsyms);
  }

  /** A packet within a range that does not start a frame and carries another frame number empties the
      buffer: decoding starts over with the next frame. */
  lemma {:induction false} MismatchResets(c: Config, t: Msc, p: Packet)
    requires Configured(c) && RangesDisjoint(c.r) && Relevant(c.r, p.sym) && p.sym != c.r.start[0] && p.frame != t.frame
    ensures NextState(c, t, p) == Msc([], t.frame, t.delivered)
  {
    hide Configured, Hits, Output, Relevant, Extended;
    WritesOnce(c.r, p.sym);
  }

  lemma {:induction false} AfterOne(h: seq<seq<byte>>, bits: seq<byte>, numsyms: nat)
    ensures After(h, true, bits, numsyms, 1) == Extended(h, bits, numsyms)
  {
    assert After(h, true, bits, numsyms, 0) == h;
  }

  lemma {:induction false} RunSelected(c: Config, t: Msc, ps: seq<Packet>)
    requires Configured(c) && RangesDisjoint(c.r)
    ensures Run(c, t, ps) == Run(c, t, SelectedPackets(c.r, ps))
    decreases |ps|
  {
    hide NextState, Configured, Relevant;
    if ps != [] {
      var n := |ps| - 1;
      RunSelected(c, t, ps[..n]);
      if Relevant(c.r, ps[n].sym) {
        var ks := SelectedPackets(c.r, ps);
        assert ks[..|ks| - 1] == SelectedPackets(c.r, ps[..n]) && ks[|ks| - 1] == ps[n];
      } else {
        assert SelectedPackets(c.r, ps) == SelectedPackets(c.r, ps[..n]);
        Ignored(c, Run(c, t, ps[..n]), ps[n]);
      }
    }
  }

  /** The packets of CIF j of frame number num. */
  predicate CifPackets(r: SymRange, q: seq<Packet>, j: nat, num: nat)
    requires |r.start| == |r.end| == 4 && j < 4
  {
    |q| == r.numsyms &&
    forall k :: 0 <= k < |q| ==> q[k].sym == r.start[j] + k && q[k].frame == num && |q[k].bits| == BITS_PER_SYMBOL
  }

  function JoinedBits(q: seq<Packet>, n: nat): seq<byte>
    requires n <= |q|
  {
    if n == 0 then [] else JoinedBits(q, n - 1) + q[n - 1].bits
  }

  /** The state after one more complete CIF. */
  function AddCif(c: Config, t: Msc, cif: seq<byte>, num: nat): Msc
    requires Configured(c)
  {
    hide Configured, Output;
    var h := t.cifs + [cif];
    Msc(h, num, if |h| >= 16 then t.delivered + [Output(c, h)] else t.delivered)
  }

  lemma {:induction false} JoinedBitsLength(r: SymRange, q: seq<Packet>, j: nat, num: nat, n: nat)
    requires |r.start| == |r.end| == 4 && j < 4 && CifPackets(r, q, j, num) && n <= |q|
    ensures |JoinedBits(q, n)| == n * BITS_PER_SYMBOL
    decreases n
  {
    if n > 0 {
      JoinedBitsLength(r, q, j, num, n - 1);
    }
  }

  lemma {:induction false} ExtendedBy(h: seq<seq<byte>>, cif: seq<byte>, bits: seq<byte>, numsyms: nat)
    requires |cif| < numsyms * BITS_PER_SYMBOL && |cif| + |bits| <= numsyms * BITS_PER_SYMBOL
    ensures Extended(h + [cif], bits, numsyms) == h + [cif + bits]
    ensures Ready(h + [cif + bits], numsyms) <==> |h| >= 15 && |cif| + |bits| == numsyms * BITS_PER_SYMBOL
  {
  }

  lemma {:induction false} ExtendedFirst(h: seq<seq<byte>>, bits: seq<byte>, numsyms: nat)
    requires AllComplete(h, numsyms)
    ensures Extended(h, bits, numsyms) == h + [bits]
    ensures Ready(h + [bits], numsyms) <==> |h| >= 15 && |bits| == numsyms * BITS_PER_SYMBOL
  {
  }

  /** The first n > 0 packets of a CIF. */
  function Partial(c: Config, t: Msc, q: seq<Packet>, num: nat, n: nat): Msc
    requires Configured(c) && n <= |q|
  {
    hide Configured, AddCif;
    if n == c.r.numsyms then AddCif(c, t, JoinedBits(q, n), num) else Msc(t.cifs + [JoinedBits(q, n)], num, t.delivered)
  }

  lemma {:induction false} PartialCif(c: Config, t: Msc, q: seq<Packet>, j: nat, num: nat, n: nat)
    requires Configured(c) && RangesDisjoint(c.r) && j < 4 && CifPackets(c.r, q, j, num) && 0 < n <= |q|
    requires AllComplete(t.cifs, c.r.numsyms) && (j == 0 || t.frame == num)
    ensures Run(c, t, q[..n]) == Partial(c, t, q, num, n)
    decreases n
  {
    hide NextState, Configured, Extended, Output, Ready;
    JoinedBitsLength(c.r, q, j, num, n - 1);
    var p, t' := q[n - 1], Run(c, t, q[..n - 1]);
    assert q[..n][..n - 1] == q[..n - 1];
    assert Relevant(c.r, p.sym);
    if n == 1 {
      assert JoinedBits(q, 1) == p.bits;
      ExtendedFirst(t.cifs, p.bits, c.r.numsyms);
      StoredOnce(c, t, p);
    } else {
      PartialCif(c, t, q, j, num, n - 1);
      ExtendedBy(t.cifs, JoinedBits(q, n - 1), p.bits, c.r.numsyms);
      StoredOnce(c, t', p);
    }
  }

  lemma {:induction false} WholeCif(c: Config, t: Msc, q: seq<Packet>, j: nat, num: nat)
    requires Configured(c) && RangesDisjoint(c.r) && j < 4 && CifPackets(c.r, q, j, num)
    requires AllComplete(t.cifs, c.r.numsyms) && (j == 0 || t.frame == num)
    ensures Run(c, t, q) == AddCif(c, t, JoinedBits(q, |q|), num)
    ensures AllComplete(AddCif(c, t, JoinedBits(q, |q|), num).cifs, c.r.numsyms)
  {
    hide Configured, Run, Output;
    JoinedBitsLength(c.r, q, j, num, |q|);
    PartialCif(c, t, q, j, num, |q|);
    assert q[..|q|] == q;
  }

  /** What the packets of a frame are, after selection: those of its four CIFs, in order, under one
      frame number. */
  datatype Frame = Frame(ps: seq<Packet>, q0: seq<Packet>, q1: seq<Packet>, q2: seq<Packet>, q3: seq<Packet>, num: nat)

  predicate Intact(r: SymRange, f: Frame)
    requires |r.start| == |r.end| == 4
  {
    && SelectedPackets(r, f.ps) == f.q0 + f.q1 + f.q2 + f.q3
    && CifPackets(r, f.q0, 0, f.num) && CifPackets(r, f.q1, 1, f.num)
    && CifPackets(r, f.q2, 2, f.num) && CifPackets(r, f.q3, 3, f.num)
  }

  /** The four CIFs of a frame. */
  function Cifs(f: Frame): (h: seq<seq<byte>>)
    ensures |h| == 4
  {
    [JoinedBits(f.q0, |f.q0|), JoinedBits(f.q1, |f.q1|), JoinedBits(f.q2, |f.q2|), JoinedBits(f.q3, |f.q3|)]
  }

  /** The frames that n CIFs have delivered: one for every CIF from the sixteenth on, each read from
      the buffer as it was when that CIF was complete. */
  function Deliveries(c: Config, h: seq<seq<byte>>, n: nat): (d: seq<seq<byte>>)
    requires Configured(c) && n <= |h|
    ensures |d| == if n < 15 then 0 else n - 15
  {
    hide Configured, Output;
    if n < 16 then [] else Deliveries(c, h, n - 1) + [Output(c, h[..n])]
  }

  lemma {:induction false} DeliveriesPrefix(c: Config, h: seq<seq<byte>>, h': seq<seq<byte>>, n: nat)
    requires Configured(c) && n <= |h| && h <= h'
    ensures Deliveries(c, h, n) == Deliveries(c, h', n)
    decreases n
  {
    hide Configured, Output;
    if n >= 16 {
      DeliveriesPrefix(c, h, h', n - 1);
      assert h[..n] == h'[..n];
    }
  }

  /** After whole CIFs: all complete, and one delivery for each from the sixteenth on. */
  ghost predicate Steady(c: Config, t: Msc, base: seq<seq<byte>>, h: seq<seq<byte>>)
    requires Configured(c)
  {
    hide Configured;
    t.cifs == h && AllComplete(h, c.r.numsyms) && t.delivered == base + Deliveries(c, h, |h|)
  }

  lemma {:induction false} SteadyCif(c: Config, t: Msc, base: seq<seq<byte>>, h: seq<seq<byte>>,
                                     q: seq<Packet>, j: nat, num: nat)
    requires Configured(c) && RangesDisjoint(c.r) && j < 4 && CifPackets(c.r, q, j, num)
    requires Steady(c, t, base, h) && (j == 0 || t.frame == num)
    ensures Steady(c, Run(c, t, q), base, h + [JoinedBits(q, |q|)]) && Run(c, t, q).frame == num
  {
    hide Configured, RangesDisjoint, CifPackets, Output, Run;
    WholeCif(c, t, q, j, num);
    var h' := h + [JoinedBits(q, |q|)];
    DeliveriesPrefix(c, h, h', |h|);
    assert h'[..|h'|] == h';
  }

  lemma {:induction false} SteadyFrame(c: Config, t: Msc, base: seq<seq<byte>>, h: seq<seq<byte>>, f: Frame)
    requires Configured(c) && RangesDisjoint(c.r) && Intact(c.r, f) && Steady(c, t, base, h)
    ensures Steady(c, Run(c, t, f.ps), base, h + Cifs(f)) && Run(c, t, f.ps).frame == f.num
  {
    hide Configured, CifPackets, Run, Steady, SelectedPackets, JoinedBits;
    RunSelected(c, t, f.ps);
    var t0 := Run(c, t, f.q0);
    var t1 := Run(c, t0, f.q1);
    var t2 := Run(c, t1, f.q2);
    RunAppend(c, t, f.q0, f.q1);
    RunAppend(c, t, f.q0 + f.q1, f.q2);
    RunAppend(c, t, f.q0 + f.q1 + f.q2, f.q3);
    var h0 := h + [JoinedBits(f.q0, |f.q0|)];
    var h1 := h0 + [JoinedBits(f.q1, |f.q1|)];
    var h2 := h1 + [JoinedBits(f.q2, |f.q2|)];
    SteadyCif(c, t, base, h, f.q0, 0, f.num);
    SteadyCif(c, t0, base, h0, f.q1, 1, f.num);
    SteadyCif(c, t1, base, h1, f.q2, 2, f.num);
    SteadyCif(c, t2, base, h2, f.q3, 3, f.num);
    assert h2 + [JoinedBits(f.q3, |f.q3|)] == h + Cifs(f);
  }

  function Stream(fs: seq<Frame>): seq<Packet> {
    if fs == [] then [] else Stream(fs[..|fs| - 1]) + fs[|fs| - 1].ps
  }

  function AllCifs(fs: seq<Frame>): (h: seq<seq<byte>>)
    ensures |h| == 4 * |fs|
  {
    if fs == [] then [] else AllCifs(fs[..|fs| - 1]) + Cifs(fs[|fs| - 1])
  }

  ghost predicate AllIntact(r: SymRange, fs: seq<Frame>)
    requires |r.start| == |r.end| == 4
  {
    forall i :: 0 <= i < |fs| ==> Intact(r, fs[i])
  }

  lemma {:induction false} SteadyRun(c: Config, t: Msc, fs: seq<Frame>)
    requires Configured(c) && RangesDisjoint(c.r) && AllIntact(c.r, fs) && t.cifs == []
    ensures Steady(c, Run(c, t, Stream(fs)), t.delivered, AllCifs(fs))
    decreases |fs|
  {
    hide Configured, Intact, Run, Deliveries;
    if fs == [] {
      NothingRun(c, t);
    } else {
      var n := |fs| - 1;
      SteadyRun(c, t, fs[..n]);
      RunAppend(c, t, Stream(fs[..n]), fs[n].ps);
      SteadyFrame(c, Run(c, t, Stream(fs[..n])), t.delivered, AllCifs(fs[..n]), fs[n]);
    }
  }

  lemma {:induction false} NothingRun(c: Config, t: Msc)
    requires Configured(c)
    ensures Run(c, t, []) == t && Deliveries(c, [], 0) == []
  {
  }

  /** From an empty buffer, after any number of intact frames: the buffer has received the four CIFs of
      every frame, in order, and exactly max(0, 4 f - 15) frames have been decoded, each from the
      CIFs up to its own. */
  lemma {:induction false} IntactRun(c: Config, t: Msc, fs: seq<Frame>)
    requires Configured(c) && c.s.startaddr + c.s.subchsz < CUS_PER_CIF
    requires AllIntact(c.r, fs) && t.cifs == []
    ensures var t' := Run(c, t, Stream(fs));
            && t'.cifs == AllCifs(fs) && AllComplete(t'.cifs, c.r.numsyms)
            && t'.delivered == t.delivered + Deliveries(c, AllCifs(fs), 4 * |fs|)
            && |t'.delivered| == |t.delivered| + (if |fs| < 4 then 0 else 4 * |fs| - 15)
  {
    hide Configured, RangesDisjoint, Intact, Run, Deliveries;
    DisjointRanges(c);
    SteadyRun(c, t, fs);
  }

  // A complete frame: the symbols 0 to 76, each once and in order, under one frame number.

  predicate CompleteFrame(ps: seq<Packet>, num: nat) {
    |ps| == LAST_SYMBOL + 1 &&
    forall i :: 0 <= i < |ps| ==> ps[i].sym == i && ps[i].frame == num && |ps[i].bits| == BITS_PER_SYMBOL
  }

  /** The part of a range among the numbers below n. */
  function Part(ps: seq<Packet>, n: nat, a: nat, b: nat): seq<Packet>
    requires a <= b + 1 <= |ps|
  {
    if n <= a then [] else if n > b then ps[a..b + 1] else ps[a..n]
  }

  lemma {:induction false} NextPart(ps: seq<Packet>, n: nat, a: nat, b: nat)
    requires a <= b + 1 <= |ps| && n < |ps|
    ensures Part(ps, n + 1, a, b) == Part(ps, n, a, b) + (if a <= n <= b then [ps[n]] else [])
    ensures n <= a ==> Part(ps, n, a, b) == []
  {
    if a <= n <= b {
      assert ps[a..n + 1] == ps[a..n] + [ps[n]];
    }
  }

  /** Only the last part that is not empty grows. */
  lemma {:induction false} GrownPart(p0: seq<Packet>, p1: seq<Packet>, p2: seq<Packet>, p3: seq<Packet>,
                                     x: Packet, j: nat)
    requires (j < 1 ==> p1 == []) && (j < 2 ==> p2 == []) && (j < 3 ==> p3 == [])
    ensures (p0 + (if j == 0 then [x] else [])) + (p1 + (if j == 1 then [x] else [])) +
            (p2 + (if j == 2 then [x] else [])) + (p3 + (if j == 3 then [x] else []))
         == p0 + p1 + p2 + p3 + (if j < 4 then [x] else [])
  {
  }

  /** The range that a symbol lies in, or 4. */
  function RangeNumber(r: SymRange, sym: nat): (j: nat)
    requires RangesDisjoint(r)
    ensures InRange(r, sym, 0) <==> j == 0
    ensures InRange(r, sym, 1) <==> j == 1
    ensures InRange(r, sym, 2) <==> j == 2
    ensures InRange(r, sym, 3) <==> j == 3
    ensures Relevant(r, sym) <==> j < 4
  {
    if InRange(r, sym, 0) then 0 else if InRange(r, sym, 1) then 1
    else if InRange(r, sym, 2) then 2 else if InRange(r, sym, 3) then 3 else 4
  }

  /** The parts of the four ranges, one after the other. */
  function Parts(r: SymRange, ps: seq<Packet>, n: nat): seq<Packet>
    requires RangesDisjoint(r) && r.end[3] < |ps|
  {
    hide Part;
    Part(ps, n, r.start[0], r.end[0]) + Part(ps, n, r.start[1], r.end[1])
    + Part(ps, n, r.start[2], r.end[2]) + Part(ps, n, r.start[3], r.end[3])
  }

  lemma {:induction false} NextParts(r: SymRange, ps: seq<Packet>, k: nat)
    requires RangesDisjoint(r) && r.end[3] < |ps| && k < |ps|
    ensures Parts(r, ps, k + 1) == Parts(r, ps, k) + (if Relevant(r, k) then [ps[k]] else [])
  {
    hide Part, RangeNumber, Relevant;
    var j := RangeNumber(r, k);
    NextPart(ps, k, r.start[0], r.end[0]);
    NextPart(ps, k, r.start[1], r.end[1]);
    NextPart(ps, k, r.start[2], r.end[2]);
    NextPart(ps, k, r.start[3], r.end[3]);
    if j < 4 {
      GrownPart(Part(ps, k, r.start[0], r.end[0]), Part(ps, k, r.start[1], r.end[1]),
                Part(ps, k, r.start[2], r.end[2]), Part(ps, k, r.start[3], r.end[3]), ps[k], j);
    }
  }

  lemma {:induction false} SelectedOfComplete(r: SymRange, ps: seq<Packet>, num: nat, n: nat)
    requires RangesDisjoint(r) && r.end[3] <= LAST_SYMBOL && CompleteFrame(ps, num) && n <= |ps|
    ensures SelectedPackets(r, ps[..n]) == Parts(r, ps, n)
    decreases n
  {
    hide Parts, Relevant, RangesDisjoint;
    if n == 0 {
      NoneSelected(r, ps);
    } else {
      var k := n - 1;
      SelectedOfComplete(r, ps, num, k);
      PrefixLast(ps, n);
      assert ps[k].sym == k;
      NextParts(r, ps, k);
    }
  }

  lemma {:induction false} NoneSelected(r: SymRange, ps: seq<Packet>)
    requires RangesDisjoint(r) && r.end[3] < |ps|
    ensures Parts(r, ps, 0) == []
  {
    hide Part;
    NoParts(ps, r.start[0], r.end[0]);
    NoParts(ps, r.start[1], r.end[1]);
    NoParts(ps, r.start[2], r.end[2]);
    NoParts(ps, r.start[3], r.end[3]);
  }

  lemma {:induction false} NoParts(ps: seq<Packet>, a: nat, b: nat)
    requires a <= b + 1 <= |ps|
    ensures Part(ps, 0, a, b) == []
  {
  }

  /** A complete frame as an intact one. */
  function Whole(r: SymRange, ps: seq<Packet>, num: nat): Frame
    requires RangesDisjoint(r) && r.end[3] < |ps|
  {
    Frame(ps, ps[r.start[0]..r.end[0] + 1], ps[r.start[1]..r.end[1] + 1], ps[r.start[2]..r.end[2] + 1],
          ps[r.start[3]..r.end[3] + 1], num)
  }

  lemma {:induction false} CompleteIsIntact(r: SymRange, ps: seq<Packet>, num: nat)
    requires RangesDisjoint(r) && r.end[3] <= LAST_SYMBOL && CompleteFrame(ps, num)
    ensures Intact(r, Whole(r, ps, num))
  {
    hide SelectedPackets, Part, CifPackets;
    SelectedOfComplete(r, ps, num, |ps|);
    assert ps[..|ps|] == ps;
    SlicePackets(r, ps, num, 0);
    SlicePackets(r, ps, num, 1);
    SlicePackets(r, ps, num, 2);
    SlicePackets(r, ps, num, 3);
  }

  lemma {:induction false} SlicePackets(r: SymRange, ps: seq<Packet>, num: nat, j: nat)
    requires RangesDisjoint(r) && r.end[3] <= LAST_SYMBOL && CompleteFrame(ps, num) && j < 4
    ensures r.end[j] < |ps| && CifPackets(r, ps[r.start[j]..r.end[j] + 1], j, num)
    ensures Part(ps, |ps|, r.start[j], r.end[j]) == ps[r.start[j]..r.end[j] + 1]
  {
  }

  /** Bits in the buffer. */
  function Size(h: seq<seq<byte>>): nat {
    if h == [] then 0 else Size(h[..|h| - 1]) + |h[|h| - 1]|
  }

  lemma {:induction false} SizeExtended(h: seq<seq<byte>>, bits: seq<byte>, numsyms: nat)
    ensures Size(Extended(h, bits, numsyms)) == Size(h) + |bits|
  {
    var h' := Extended(h, bits, numsyms);
    if h == [] || Complete(h, numsyms) {
      assert h'[..|h'| - 1] == h;
    } else {
      assert h'[..|h'| - 1] == h[..|h| - 1];
    }
  }

  lemma {:induction false} SizeAfter(h: seq<seq<byte>>, bits: seq<byte>, numsyms: nat, k: nat)
    requires |bits| == BITS_PER_SYMBOL
    ensures Size(After(h, true, bits, numsyms, k)) == Size(h) + k * BITS_PER_SYMBOL
    decreases k
  {
    hide Extended, Size;
    if k > 0 {
      SizeAfter(h, bits, numsyms, k - 1);
      SizeExtended(After(h, true, bits, numsyms, k - 1), bits, numsyms);
    }
  }

  lemma {:induction false} SizeComplete(h: seq<seq<byte>>, numsyms: nat, size: nat)
    requires AllComplete(h, numsyms) && size == numsyms * BITS_PER_SYMBOL
    ensures Size(h) == |h| * size
    decreases |h|
  {
    if h != [] {
      var n := |h| - 1;
      SizeComplete(h[..n], numsyms, size);
      assert |h| * size == n * size + size;
    }
  }

  lemma {:induction false} CompleteRunSize(c: Config, t: Msc, ps: seq<Packet>, num: nat, n: nat)
    requires Configured(c) && t.cifs == [] && CompleteFrame(ps, num) && n <= |ps|
    ensures var t' := Run(c, t, ps[..n]);
            Size(t'.cifs) == BITS_PER_SYMBOL * WritesBelow(c.r, n) && (n > c.r.start[0] ==> t'.frame == num)
    decreases n
  {
    hide Output, Hits, Hit, Extended, After, Size;
    if n == 0 {
      NoBits();
    } else {
      CompleteRunSize(c, t, ps, num, n - 1);
      var p, t' := ps[n - 1], Run(c, t, ps[..n - 1]);
      PrefixLast(ps, n);
      SizeExtended(t'.cifs, p.bits, c.r.numsyms);
      SizeAfter(t'.cifs, p.bits, c.r.numsyms, Hits(c.r, p.sym, 7));
      NoHits(t'.cifs, p.frame == t'.frame, p.bits, c.r.numsyms);
      if n - 1 < c.r.start[0] {
        NoHitsBefore(c.r, n - 1);
      }
    }
  }

  lemma {:induction false} PrefixLast(ps: seq<Packet>, n: nat)
    requires 0 < n <= |ps|
    ensures ps[..n][..n - 1] == ps[..n - 1] && ps[..n][n - 1] == ps[n - 1]
  {
  }

  lemma NoBits()
    ensures Size([]) == 0
  {
  }

  lemma {:induction false} NoHitsBefore(r: SymRange, sym: nat)
    requires |r.start| == |r.end| == 4 && sym < r.start[0] <= r.start[1] <= r.start[2] <= r.start[3]
    ensures Hits(r, sym, 7) == 0
  {
    SevenHits(r, sym);
  }

  /** From an empty buffer a complete frame leaves four complete CIFs exactly when the sub-channel does
      not end with the last capacity unit: symbol 77, which would be its last one, does not exist. */
  lemma {:induction false} CompleteFrameIff(c: Config, t: Msc, ps: seq<Packet>, num: nat)
    requires Configured(c) && c.s.startaddr + c.s.subchsz <= CUS_PER_CIF
    requires t.cifs == [] && CompleteFrame(ps, num)
    ensures var h := Run(c, t, ps).cifs;
            |h| == 4 && AllComplete(h, c.r.numsyms) <==> c.s.startaddr + c.s.subchsz < CUS_PER_CIF
  {
    hide Output, Run, Size, WritesBelow, Intact;
    var h := Run(c, t, ps).cifs;
    if c.s.startaddr + c.s.subchsz < CUS_PER_CIF {
      DisjointRanges(c);
      RangesFit(c.r, c.s.startaddr, c.s.subchsz);
      CompleteIsIntact(c.r, ps, num);
      OneFrame(Whole(c.r, ps, num));
      IntactRun(c, t, [Whole(c.r, ps, num)]);
    } else {
      FrameSize(c, t, ps, num);
      if |h| == 4 && AllComplete(h, c.r.numsyms) {
        SizeComplete(h, c.r.numsyms, c.r.numsyms * BITS_PER_SYMBOL);
      }
    }
  }

  lemma {:induction false} OneFrame(f: Frame)
    ensures Stream([f]) == f.ps && |AllCifs([f])| == 4
  {
    assert [f][..0] == [] && Stream([]) == [];
  }

  lemma {:induction false} FrameSize(c: Config, t: Msc, ps: seq<Packet>, num: nat)
    requires Configured(c) && c.s.startaddr + c.s.subchsz == CUS_PER_CIF
    requires t.cifs == [] && CompleteFrame(ps, num)
    ensures Size(Run(c, t, ps).cifs) == BITS_PER_SYMBOL * (4 * c.r.numsyms - 1)
  {
    hide Output, Run, Size, WritesBelow;
    CompleteRunSize(c, t, ps, num, |ps|);
    assert ps[..|ps|] == ps;
    FrameWrites(c.r, c.s.startaddr, c.s.subchsz);
  }
}
