/** The assembly of the three FIC symbols of a frame, and what follows once they are complete. */
module FicAssemble {
  import opened Bits
  import opened Viterbi
  import opened Symbols
  import opened Ensemble
  import opened Fic
  import opened FigWalk
  import opened FicProcess

  /** A packet with a symbol of the FIC: the number of the symbol, that of its frame, and the symbol. */
  datatype FicPacket = FicPacket(sym: nat, frame: nat, data: seq<byte>)

  /** After symbol 2 at position i only symbols k of its frame have come, up to position n. */
  predicate OnlyAfter(h: seq<FicPacket>, i: nat, n: nat, k: nat) {
    && i < n <= |h| && h[i].sym == 2
    && forall j :: i < j < n ==> h[j].frame == h[i].frame && h[j].sym == k
  }

  /** Symbol 2 at position i can still be completed. */
  predicate Open(h: seq<FicPacket>, i: nat) {
    hide OnlyAfter;
    OnlyAfter(h, i, |h|, 3) || OnlyAfter(h, i, |h|, 4)
  }

  /** The last packet completes a frame: symbol 2 at position i, then symbol 3 or symbol 4, as often as it comes,
      and last the other one, all of the same frame. */
  predicate Completes(h: seq<FicPacket>, i: nat) {
    hide OnlyAfter;
    var n := |h| - 1;
    && i + 1 < n && h[n].frame == h[i].frame
    && ((h[n].sym == 4 && OnlyAfter(h, i, n, 3)) || (h[n].sym == 3 && OnlyAfter(h, i, n, 4)))
  }

  ghost predicate Complete(h: seq<FicPacket>) {
    hide Completes;
    exists i: nat :: Completes(h, i)
  }

  ghost predicate Sized(h: seq<FicPacket>) {
    forall k :: 0 <= k < |h| ==> |h[k].data| == SYMBOL_BYTES
  }

  /** The symbols of the frame that the last packet completes. A symbol that came repeatedly counts as it
      came last. */
  function Symbol3(h: seq<FicPacket>): seq<byte>
    requires |h| >= 2
  {
    if h[|h| - 1].sym == 3 then h[|h| - 1].data else h[|h| - 2].data
  }

  function Symbol4(h: seq<FicPacket>): seq<byte>
    requires |h| >= 2
  {
    if h[|h| - 1].sym == 4 then h[|h| - 1].data else h[|h| - 2].data
  }

  lemma {:induction false} OpenIsLast(h: seq<FicPacket>, i: nat)
    requires Open(h, i)
    ensures i < |h| && forall j :: i < j < |h| ==> h[j].sym != 2
  {
  }

  /** Nothing but the open position can be completed. */
  lemma {:induction false} CompletesOpen(h: seq<FicPacket>, p: FicPacket, i: nat)
    requires Completes(h + [p], i)
    ensures Open(h, i)
  {
    var h' := h + [p];
    assert h'[|h|] == p && forall j :: 0 <= j < |h| ==> h'[j] == h[j];
  }

  lemma {:induction false} CompletesOnce(h: seq<FicPacket>, i: nat, j: nat)
    requires Completes(h, i) && Completes(h, j)
    ensures i == j
  {
    hide Completes, Open;
    var n := |h| - 1;
    assert |h| > 0 by { NotEmpty(h, i); }
    assert h[..n] + [h[n]] == h;
    CompletesOpen(h[..n], h[n], i);
    CompletesOpen(h[..n], h[n], j);
    SameOpen(h[..n], i, j);
  }

  lemma {:induction false} NotEmpty(h: seq<FicPacket>, i: nat)
    requires Completes(h, i)
    ensures i + 2 < |h|
  {
  }

  lemma {:induction false} OpenBefore(h: seq<FicPacket>, p: FicPacket, i: nat)
    requires Open(h + [p], i)
    ensures i <= |h| && (if i == |h| then p.sym == 2 else Open(h, i) && p.sym != 2 && p.frame == h[i].frame)
  {
    var h' := h + [p];
    assert h'[|h|] == p && forall j :: 0 <= j < |h| ==> h'[j] == h[j];
  }

  /** Only one position can be open. */
  lemma {:induction false} SameOpen(h: seq<FicPacket>, i: nat, j: nat)
    requires Open(h, i) && Open(h, j)
    ensures i == j
  {
    OpenIsLast(h, i);
    OpenIsLast(h, j);
  }

  lemma {:induction false} PrefixOnly(h: seq<FicPacket>, p: FicPacket, i: nat, k: nat)
    requires i < |h|
    ensures OnlyAfter(h + [p], i, |h|, k) <==> OnlyAfter(h, i, |h|, k)
  {
    var h' := h + [p];
    assert forall j :: 0 <= j < |h| ==> h'[j] == h[j];
  }

  /** The symbol that follows an open position, if any. */
  function Kind(h: seq<FicPacket>, i: nat): nat
    requires i < |h|
  {
    if i + 1 < |h| then h[i + 1].sym else 0
  }

  lemma {:induction false} OpenKind(h: seq<FicPacket>, i: nat)
    requires Open(h, i)
    ensures i < |h|
    ensures if i + 1 == |h| then Kind(h, i) == 0 && OnlyAfter(h, i, |h|, 3) && OnlyAfter(h, i, |h|, 4)
            else
              && (Kind(h, i) == 3 || Kind(h, i) == 4) && OnlyAfter(h, i, |h|, Kind(h, i))
              && h[|h| - 1].sym == Kind(h, i)
  {
  }

  /** What a packet after an open position does. */
  lemma {:induction false} AfterOpen(h: seq<FicPacket>, p: FicPacket, i: nat)
    requires Open(h, i) && (p.sym == 3 || p.sym == 4)
    ensures var h' := h + [p];
            var completes := p.frame == h[i].frame && i + 1 < |h| && Kind(h, i) != p.sym;
            && (Complete(h') <==> completes) && (completes ==> Completes(h', i))
            && (if p.frame == h[i].frame && !completes then Open(h', i) else forall j: nat :: !Open(h', j))
            && Kind(h', i) == if i + 1 < |h| then Kind(h, i) else p.sym
  {
    hide OnlyAfter, Completes, Open;
    var h' := h + [p];
    assert h'[|h|] == p && forall j :: 0 <= j < |h| ==> h'[j] == h[j];
    OpenKind(h, i);
    forall j: nat | Completes(h', j) ensures j == i {
      CompletesOpen(h, p, j);
      SameOpen(h, i, j);
    }
    forall j: nat | Open(h', j) ensures j == i && p.frame == h[i].frame {
      OpenBefore(h, p, j);
      if j < |h| {
        SameOpen(h, i, j);
      }
    }
    OpenOrComplete(h, p, i);
  }

  lemma {:induction false} OpenOrComplete(h: seq<FicPacket>, p: FicPacket, i: nat)
    requires Open(h, i) && (p.sym == 3 || p.sym == 4) && i < |h|
    ensures var h', completes := h + [p], p.frame == h[i].frame && i + 1 < |h| && Kind(h, i) != p.sym;
            && (Completes(h', i) <==> completes)
            && (Open(h', i) <==> p.frame == h[i].frame && !completes)
  {
    hide OnlyAfter;
    var h' := h + [p];
    assert h'[|h|] == p && h'[i] == h[i];
    OpenKind(h, i);
    PrefixOnly(h, p, i, 3);
    PrefixOnly(h, p, i, 4);
    WholeOnly(h, p, i, 3);
    WholeOnly(h, p, i, 4);
    if i + 1 < |h| {
      NotBoth(h, i);
    }
  }

  lemma {:induction false} WholeOnly(h: seq<FicPacket>, p: FicPacket, i: nat, k: nat)
    requires i < |h|
    ensures OnlyAfter(h + [p], i, |h| + 1, k) <==> OnlyAfter(h, i, |h|, k) && p.frame == h[i].frame && p.sym == k
  {
    var h' := h + [p];
    assert h'[|h|] == p && forall j :: 0 <= j < |h| ==> h'[j] == h[j];
  }

  lemma {:induction false} NotBoth(h: seq<FicPacket>, i: nat)
    requires i + 1 < |h|
    ensures !(OnlyAfter(h, i, |h|, 3) && OnlyAfter(h, i, |h|, 4))
    ensures forall k :: OnlyAfter(h, i, |h|, k) ==> Kind(h, i) == k
  {
    assert forall k :: OnlyAfter(h, i, |h|, k) ==> h[i + 1].sym == k;
  }

  /** What a packet does when nothing is open. */
  lemma {:induction false} AfterClosed(h: seq<FicPacket>, p: FicPacket)
    requires (forall i: nat :: !Open(h, i)) && p.sym != 2
    ensures !Complete(h + [p]) && forall i: nat :: !Open(h + [p], i)
  {
    hide Open, Completes;
    forall i: nat ensures !Completes(h + [p], i) && !Open(h + [p], i) {
      if Completes(h + [p], i) {
        CompletesOpen(h, p, i);
      }
      if Open(h + [p], i) {
        OpenBefore(h, p, i);
      }
    }
  }

  lemma {:induction false} AfterSecond(h: seq<FicPacket>, p: FicPacket)
    requires p.sym == 2
    ensures !Complete(h + [p]) && Open(h + [p], |h|)
  {
    hide OnlyAfter;
    var h' := h + [p];
    assert h'[|h|] == p;
    assert OnlyAfter(h', |h|, |h'|, 3) by { OneAfter(h, p); }
  }

  lemma {:induction false} OneAfter(h: seq<FicPacket>, p: FicPacket)
    requires p.sym == 2
    ensures OnlyAfter(h + [p], |h|, |h| + 1, 3)
  {
  }

  class FicReceiver {
    var symFlags: bv8
    var curFrame: byte
    const ficsyms2: array<byte>
    const ficsyms3: array<byte>
    const ficsyms4: array<byte>
    const rawfibs: array<byte>
    const einf: EnsInfo
    const mettab: Mettab
    const longBits: wordsize
    /** All packets that have come in, and the position of the symbol 2 that can still be completed,
        or their number. */
    ghost var history: seq<FicPacket>
    ghost var first: nat

    /** The flags say which symbols the buffers hold; without symbol 2 they never reach 15. */
    ghost predicate Flagged()
      reads this, ficsyms2, ficsyms3, ficsyms4
    {
      hide Open;
      if first < |history| then
        && Open(history, first) && curFrame == history[first].frame && ficsyms2[..] == history[first].data
        && var last := history[|history| - 1];
           match Kind(history, first)
           case 3 => symFlags == 11 && ficsyms3[..] == last.data
           case 4 => symFlags == 12 && ficsyms4[..] == last.data
           case _ => symFlags == 8
      else
        && (forall i: nat :: !Open(history, i))
        && (symFlags == 0 || symFlags == 3 || symFlags == 4 || symFlags == 7)
    }

    ghost predicate Sizes()
    {
      && ficsyms2.Length == ficsyms3.Length == ficsyms4.Length == SYMBOL_BYTES && rawfibs.Length == 360
      && ficsyms2 != ficsyms3 && ficsyms2 != ficsyms4 && ficsyms3 != ficsyms4
      && rawfibs != ficsyms2 && rawfibs != ficsyms3 && rawfibs != ficsyms4
    }

    ghost predicate Valid()
      reads this, ficsyms2, ficsyms3, ficsyms4, einf, einf.list, einf.schan
    {
      Sizes() && Sized(history) && Flagged() && einf.Valid()
    }

    constructor (mettab: Mettab, longBits: wordsize)
      ensures Valid() && history == [] && Empty(StateOf(einf))
      ensures this.mettab == mettab
    {
      symFlags, curFrame, history, first := 0, 0, [], 0;
      ficsyms2 := new byte[SYMBOL_BYTES](_ => 0);
      ficsyms3 := new byte[SYMBOL_BYTES](_ => 0);
      ficsyms4 := new byte[SYMBOL_BYTES](_ => 0);
      rawfibs := new byte[360](_ => 0);
      einf := new EnsInfo();
      this.mettab, this.longBits := mettab, longBits;
    }

    /** memcpy of the data of a packet. */
    method Copy(rdbuf: array<byte>, buf: array<byte>)
      requires rdbuf.Length == PACKET_BYTES && buf.Length == SYMBOL_BYTES && buf != rdbuf
      modifies buf
      ensures buf[..] == rdbuf[12..396]
    {
      for i := 0 to SYMBOL_BYTES
        invariant forall k :: 0 <= k < i ==> buf[k] == rdbuf[12 + k]
      {
        buf[i] := rdbuf[12 + i];
      }
    }

    /** Store symbol 3 or 4 if it belongs to the current frame. */
    method Store(rdbuf: array<byte>)
      requires Sizes() && rdbuf.Length == PACKET_BYTES && 3 <= rdbuf[2] <= 4
      requires rdbuf != ficsyms3 && rdbuf != ficsyms4
      modifies this`symFlags, ficsyms3, ficsyms4
      ensures symFlags == if rdbuf[3] != curFrame then 0
                          else if rdbuf[2] == 3 then old(symFlags) | 3 else old(symFlags) | 4
      ensures ficsyms3[..] == if rdbuf[3] == curFrame && rdbuf[2] == 3 then rdbuf[12..396] else old(ficsyms3[..])
      ensures ficsyms4[..] == if rdbuf[3] == curFrame && rdbuf[2] == 4 then rdbuf[12..396] else old(ficsyms4[..])
    {
      if rdbuf[3] == curFrame {
        if rdbuf[2] == 3 {
          symFlags := symFlags | 3;
          Copy(rdbuf, ficsyms3);
        } else {
          symFlags := symFlags | 4;
          Copy(rdbuf, ficsyms4);
        }
      } else {
        symFlags := 0;
      }
    }

    /** Symbol 3 or 4 comes in. */
    method Follow(rdbuf: array<byte>) returns (complete: bool)
      requires Valid() && rdbuf.Length == PACKET_BYTES && 3 <= rdbuf[2] <= 4
      requires rdbuf != ficsyms2 && rdbuf != ficsyms3 && rdbuf != ficsyms4
      modifies this, ficsyms3, ficsyms4
      ensures history == old(history) + [FicPacket(rdbuf[2], rdbuf[3], rdbuf[12..396])]
      ensures complete <==> Complete(history)
      ensures if complete then Held() else Flagged()
    {
      hide Open, Completes, Complete, Kind;
      ghost var h, p, i := history, FicPacket(rdbuf[2], rdbuf[3], rdbuf[12..396]), first;
      history := h + [p];
      if i < |h| {
        AfterOpen(h, p, i);
        OpenKind(h, i);
      } else {
        AfterClosed(h, p);
      }
      if i >= |h| || p.frame != h[i].frame {
        first := |history|;
      }
      Store(rdbuf);
      complete := symFlags == 15;
    }

    /** The buffers hold the symbols of the frame that the last packet has completed. */
    ghost predicate Held()
      reads this, ficsyms2, ficsyms3, ficsyms4
    {
      hide Completes, Open;
      && (forall i: nat :: !Open(history, i))
      && first + 1 < |history| && Completes(history, first) && ficsyms2[..] == history[first].data
      && ficsyms3[..] == Symbol3(history) && ficsyms4[..] == Symbol4(history)
    }

    /** Store one symbol and keep the flags: true if all three are there. */
    method Collect(rdbuf: array<byte>) returns (complete: bool)
      requires Valid() && rdbuf.Length == PACKET_BYTES && 2 <= rdbuf[2] <= 4
      requires rdbuf != ficsyms2 && rdbuf != ficsyms3 && rdbuf != ficsyms4
      modifies this, ficsyms2, ficsyms3, ficsyms4
      ensures history == old(history) + [FicPacket(rdbuf[2], rdbuf[3], rdbuf[12..396])]
      ensures complete <==> Complete(history)
      ensures if complete then Held() else Flagged()
    {
      hide Open, Complete, Completes;
      if rdbuf[2] == 2 {
        ghost var h, p := history, FicPacket(rdbuf[2], rdbuf[3], rdbuf[12..396]);
        AfterSecond(h, p);
        history, first := h + [p], |h|;
        curFrame := rdbuf[3];
        symFlags := 8;
        Copy(rdbuf, ficsyms2);
        complete := false;
      } else {
        complete := Follow(rdbuf);
      }
    }

    /** The blocks are decoded into the buffer, and the walk over them starts from there. */
    method Process() returns (fibs: nat, ghost decoded: seq<byte>)
      requires Sizes() && Sized(history) && einf.Valid() && Held()
      modifies this, rawfibs, einf, einf.list, einf.schan
      ensures Valid() && Grown(einf) && history == old(history)
      ensures Processed(mettab, history, old(rawfibs[..]), decoded, fibs)
      ensures rawfibs[..] == FibsWalk(decoded, fibs).raw
      ensures StateOf(einf) == ApplyAll(old(StateOf(einf)), FibsWalk(decoded, fibs).evs)
    {
      hide FicOutput, FibsWalk, ApplyAll, EnsInfo.Valid, Completes, Open;
      symFlags := 0;
      ghost var i := first;
      forall j: nat | Completes(history, j) ensures j == i {
        CompletesOnce(history, i, j);
      }
      fibs, decoded := ProcessFic(einf, ficsyms2, ficsyms3, ficsyms4, rawfibs, mettab, longBits);
      first := |history|;
    }

    /** `fic_assemble`: the FIC is processed exactly when the last packets are symbol 2 and then symbols 3 and 4 of
        one frame, and what is decoded is symbols 2, 3 and 4 in this order, however 3 and 4 came. */
    method Assemble(rdbuf: array<byte>) returns (processed: bool, fibs: nat, ghost decoded: seq<byte>)
      requires Valid() && rdbuf.Length == PACKET_BYTES && 2 <= rdbuf[2] <= 4
      requires rdbuf != ficsyms2 && rdbuf != ficsyms3 && rdbuf != ficsyms4 && rdbuf != rawfibs
      modifies this, ficsyms2, ficsyms3, ficsyms4, rawfibs, einf, einf.list, einf.schan
      ensures Valid() && Grown(einf) && history == old(history) + [FicPacket(rdbuf[2], rdbuf[3], rdbuf[12..396])]
      ensures processed <==> exists i: nat :: Completes(history, i)
      ensures processed ==>
                && Processed(mettab, history, old(rawfibs[..]), decoded, fibs)
                && rawfibs[..] == FibsWalk(decoded, fibs).raw
                && StateOf(einf) == ApplyAll(old(StateOf(einf)), FibsWalk(decoded, fibs).evs)
      ensures !processed ==> StateOf(einf) == old(StateOf(einf)) && rawfibs[..] == old(rawfibs[..])
    {
      hide Processed, FibsWalk, ApplyAll, EnsInfo.Valid, Completes, Flagged, Open, Held;
      fibs, decoded := 0, [];
      processed := Collect(rdbuf);
      if processed {
        fibs, decoded := Process();
      }
    }
  }

  /** The three symbols of the frame that the last packet completes were decoded into the buffer. */
  ghost predicate Processed(m: Mettab, h: seq<FicPacket>, before: seq<byte>, after: seq<byte>, fibs: nat) {
    hide FicOutput, Completes;
    Sized(h) && |h| >= 2 && |before| == 360
    && forall i: nat :: Completes(h, i) ==>
         i < |h| && FicOutput(m, h[i].data, Symbol3(h), Symbol4(h), before, after, fibs)
  }
}
