/** The circular buffer of CIFs, and the time deinterleaver that reads from it. */
module MscBuffer {
  import opened Bits
  import opened SymbolRange

  // A history holds the CIFs received since the last reset, each as the bits of its symbols; only
  // the last may be incomplete.

  predicate Complete(h: seq<seq<byte>>, numsyms: nat) {
    h != [] && |h[|h| - 1]| == numsyms * BITS_PER_SYMBOL
  }

  /** Room for one more symbol. */
  function Prepared(h: seq<seq<byte>>, numsyms: nat): (h': seq<seq<byte>>)
    ensures h' != []
  {
    if h == [] || Complete(h, numsyms) then h + [[]] else h
  }

  /** One more symbol. */
  function Extended(h: seq<seq<byte>>, sym: seq<byte>, numsyms: nat): seq<seq<byte>> {
    if h == [] || Complete(h, numsyms) then h + [sym] else h[..|h| - 1] + [h[|h| - 1] + sym]
  }

  /** A wcbuf call reports a complete buffer when the sixteenth or a later CIF is complete. */
  predicate Ready(h: seq<seq<byte>>, numsyms: nat) {
    |h| >= 16 && Complete(h, numsyms)
  }

  predicate AllComplete(h: seq<seq<byte>>, numsyms: nat) {
    forall r :: 0 <= r < |h| ==> |h[r]| == numsyms * BITS_PER_SYMBOL
  }

  /** Delay, in CIFs, of the bits with index k modulo 16, section 12 of EN 300 401: the four binary digits of k
      in reverse order. */
  function Delay(k: nat): (d: nat)
    requires k < 16
    ensures d < 16 && (d == 0 <==> k == 0)
  {
    8 * (k % 2) + 4 * (k / 2 % 2) + 2 * (k / 4 % 2) + k / 8
  }

  /** The sub-channel lies within the symbols of the range. */
  predicate Within(startcu: nat, subchsz: nat, numsyms: nat) {
    BITS_PER_CU * startcu + BITS_PER_CU * subchsz <= numsyms * BITS_PER_SYMBOL
  }

  /** The CIF, of R + 1, that bit i is read from. */
  function CifRead(R: nat, i: nat): (r: nat)
    requires R >= 15
    ensures r <= R < r + 16
  {
    var d := Delay(i % 16);
    if d == 0 then R else R - 16 + d
  }

  /** What is read from the buffer. */
  function Deinterleaved(h: seq<seq<byte>>, startcu: nat, subchsz: nat, numsyms: nat): (lf: seq<byte>)
    requires |h| >= 16 && AllComplete(h, numsyms) && Within(startcu, subchsz, numsyms)
    ensures |lf| == BITS_PER_CU * subchsz
  {
    seq(BITS_PER_CU * subchsz, i requires 0 <= i < BITS_PER_CU * subchsz =>
      h[CifRead(|h| - 1, i)][BITS_PER_CU * startcu + i])
  }

  class CircularBuffer {
    const numsyms: nat
    var data: array2<byte>
    var syms: array<nat>
    var head: nat
    var lframe: nat
    var first: bool
    var full: bool
    ghost var cifs: seq<seq<byte>>

    /** Slot s holds the bits of a CIF. */
    ghost predicate Holds(s: nat, cif: seq<byte>)
      reads `data, `syms, data, syms
    {
      && s < 16 <= data.Length0 && syms.Length == 16 && |cif| <= data.Length1
      && |cif| == syms[s] * BITS_PER_SYMBOL
      && forall i :: 0 <= i < |cif| ==> data[s, i] == cif[i]
    }

    ghost predicate Sizes()
      reads `data, `syms, `first, `cifs
    {
      && syms.Length == 16 && numsyms >= 1
      && (first ==> cifs == [])
      && (!first ==> data.Length0 == 16 && data.Length1 == numsyms * BITS_PER_SYMBOL)
    }

    /** Every CIF but the last is complete. */
    ghost predicate CifsSized()
      reads `cifs
    {
      && (forall r :: 0 <= r < |cifs| - 1 ==> |cifs[r]| == numsyms * BITS_PER_SYMBOL)
      && (cifs != [] ==> |cifs[|cifs| - 1]| <= numsyms * BITS_PER_SYMBOL)
    }

    /** head and lframe are the slot of the newest CIF; the sixteen newest CIFs are in their slots. */
    ghost predicate Stored()
      reads `data, `syms, `first, `cifs, `head, `lframe, data, syms
    {
      && Sizes() && CifsSized()
      && head == lframe == (if cifs == [] then 0 else (|cifs| - 1) % 16)
      && (cifs == [] ==> forall s :: 0 <= s < 16 ==> syms[s] == 0)
      && forall r :: 0 <= r < |cifs| && |cifs| <= r + 16 ==> Holds(r % 16, cifs[r])
    }

    ghost predicate Valid()
      reads this, data, syms
    {
      && Stored() && (full <==> |cifs| >= 16)
      && (cifs != [] ==> cifs[|cifs| - 1] != [])
    }

    constructor (numsyms: nat)
      requires numsyms >= 1
      ensures Valid() && cifs == [] && this.numsyms == numsyms && fresh(data) && fresh(syms)
    {
      this.numsyms := numsyms;
      data := new byte[0, 0];
      syms := new nat[16](_ => 0);
      head, lframe, first, full, cifs := 0, 0, true, false, [];
    }

    /** `wcbuf` with reset */
    method Reset()
      requires Valid()
      modifies this, syms
      ensures Valid() && cifs == [] && data == old(data) && syms == old(syms)
    {
      lframe := 0;
      head := 0;
      full := false;
      cifs := [];
      for i := 0 to 16
        modifies syms
        invariant forall s :: 0 <= s < i ==> syms[s] == 0
      {
        syms[i] := 0;
      }
    }

    /** `init_cbuf` */
    method Init()
      requires Valid() && first
      modifies this`data, this`first, this`head, this`lframe, syms
      ensures Valid() && !first && cifs == [] == old(cifs) && fresh(data) && syms == old(syms)
    {
      data := new byte[16, numsyms * BITS_PER_SYMBOL]((s, i) => 0);
      for i := 0 to 16
        modifies syms
        invariant forall s :: 0 <= s < i ==> syms[s] == 0
      {
        syms[i] := 0;
      }
      head, lframe, first := 0, 0, false;
    }

    /** memcpy of one symbol into slot s. */
    method Insert(s: nat, off: nat, sym: array<byte>)
      requires s < data.Length0 && off + BITS_PER_SYMBOL <= data.Length1 && sym.Length == BITS_PER_SYMBOL
      modifies data
      ensures forall k :: off <= k < off + BITS_PER_SYMBOL ==> data[s, k] == sym[k - off]
      ensures forall r, k ::
                0 <= r < data.Length0 && 0 <= k < data.Length1 && !(r == s && off <= k < off + BITS_PER_SYMBOL)
                ==> data[r, k] == old(data[r, k])
    {
      for i := 0 to BITS_PER_SYMBOL
        invariant forall k :: off <= k < off + i ==> data[s, k] == sym[k - off]
        invariant forall r, k :: 0 <= r < data.Length0 && 0 <= k < data.Length1 && !(r == s && off <= k < off + i)
                    ==> data[r, k] == old(data[r, k])
      {
        data[s, off + i] := sym[i];
      }
    }

    /** The next slot becomes the newest, with an empty CIF. */
    method Advance()
      requires Stored() && !first && Complete(cifs, numsyms)
      modifies this`head, this`lframe, this`cifs, syms
      ensures Stored() && cifs == old(cifs) + [[]] && syms[lframe] == 0
    {

      ghost var n := |cifs|;
      head := (head + 1) % 16;
      lframe := (lframe + 1) % 16;
      SlotFree(n);
      syms[lframe] := 0;
      cifs := cifs + [[]];
      forall r | 0 <= r < |cifs| && |cifs| <= r + 16 ensures Holds(r % 16, cifs[r]) {
        if r < n {
        } else {
          Emptied(lframe);
        }
      }
    }

    lemma {:induction false} Emptied(s: nat)
      requires s < 16 <= data.Length0 && syms.Length == 16 && syms[s] == 0
      ensures Holds(s, [])
    {
    }

    /** One symbol goes to the end of the newest CIF. */
    method Store(sym: array<byte>)
      requires Stored() && !first && cifs != [] && !Complete(cifs, numsyms)
      requires sym.Length == BITS_PER_SYMBOL && (sym as object) != syms
      modifies this`cifs, data, syms
      ensures Stored() && cifs == old(cifs[..|cifs| - 1] + [cifs[|cifs| - 1] + sym[..]])
      ensures cifs[|cifs| - 1] != [] && |cifs| == old(|cifs|)
      ensures syms[lframe] == numsyms <==> Complete(cifs, numsyms)
    {
      ghost var n, cif := |cifs|, cifs[|cifs| - 1];
      assert Holds((n - 1) % 16, cif);
      Insert(lframe, syms[lframe] * BITS_PER_SYMBOL, sym);
      syms[lframe] := syms[lframe] + 1;
      cifs := cifs[..n - 1] + [cif + sym[..]];
      assert Holds(lframe, cif + sym[..]);
      forall r | 0 <= r < n && n <= r + 16 ensures Holds(r % 16, cifs[r]) {
        if r < n - 1 {
          SlotsDiffer(r, n - 1);
        }
      }
    }

    /** The first half of `wcbuf`: make sure that the newest slot has room. */
    method Prepare()
      requires Valid()
      modifies this`data, this`first, this`head, this`lframe, this`cifs, syms
      ensures Stored() && !first && cifs == Prepared(old(cifs), numsyms) && !Complete(cifs, numsyms)
      ensures (data == old(data) || fresh(data)) && syms == old(syms)
    {
      hide Stored;
      if first {
        Init();
      }
      NewestCount();
      if syms[lframe] == numsyms {
        Advance();
      } else if cifs == [] {
        Begin();
      }
      NewestCount();
    }

    /** `wcbuf` without reset: store one symbol; report whether the buffer is full of complete CIFs. */
    method Write(sym: array<byte>) returns (ready: bool)
      requires Valid() && sym.Length == BITS_PER_SYMBOL && (sym as object) != syms
      modifies this, data, syms
      ensures Valid() && cifs == Extended(old(cifs), old(sym[..]), numsyms)
      ensures ready == Ready(cifs, numsyms)
      ensures (data == old(data) || fresh(data)) && syms == old(syms)
    {
      hide Stored;
      Appended(cifs, sym[..], numsyms);
      Prepare();
      var frameComplete := false;
      NewestCount();
      if syms[lframe] < numsyms {
        Store(sym);
        if syms[lframe] == numsyms {
          frameComplete := true;
        }
      }
      NewestSlot();
      if lframe == 15 {
        full := true;
      }
      ready := full && frameComplete;
    }

    /** `time_disinterleave` */
    method TimeDisinterleave(obuf: array<byte>, subchsz: nat, startcu: nat)
      requires Valid() && Ready(cifs, numsyms) && Within(startcu, subchsz, numsyms)
      requires obuf.Length >= BITS_PER_CU * subchsz && (obuf as object) != syms
      modifies obuf
      ensures AllComplete(cifs, numsyms)
      ensures obuf[..BITS_PER_CU * subchsz] == Deinterleaved(cifs, startcu, subchsz, numsyms)
      ensures obuf[BITS_PER_CU * subchsz..] == old(obuf[BITS_PER_CU * subchsz..])
    {
      hide Holds, Delay;
      var delays := [0, 8, 4, 12, 2, 10, 6, 14, 1, 9, 5, 13, 3, 11, 7, 15];
      assert AllComplete(cifs, numsyms);
      for i := 0 to BITS_PER_CU * subchsz
        modifies obuf
        invariant forall k :: 0 <= k < i ==> obuf[k] == Deinterleaved(cifs, startcu, subchsz, numsyms)[k]
        invariant obuf[BITS_PER_CU * subchsz..] == old(obuf[BITS_PER_CU * subchsz..])
      {
        MapIsDelay(i % 16);
        var cif := delays[i % 16];
        SlotRead(startcu, subchsz, i);
        obuf[i] := data[(head + cif) % 16, BITS_PER_CU * startcu + i];
      }
    }

    lemma {:induction false} SlotRead(startcu: nat, subchsz: nat, i: nat)
      requires Stored() && |cifs| >= 16 && AllComplete(cifs, numsyms) && Within(startcu, subchsz, numsyms)
      requires i < BITS_PER_CU * subchsz
      ensures !first && data.Length0 == 16 && BITS_PER_CU * startcu + i < data.Length1
      ensures data[(head + Delay(i % 16)) % 16, BITS_PER_CU * startcu + i]
           == Deinterleaved(cifs, startcu, subchsz, numsyms)[i]
    {
      hide Delay;
      var R := |cifs| - 1;
      SlotOf(R, Delay(i % 16));
      assert Holds(CifRead(R, i) % 16, cifs[CifRead(R, i)]);
    }

    /** The first symbol of all goes to an empty CIF in slot 0. */
    ghost method Begin()
      requires Stored() && !first && cifs == []
      modifies this`cifs
      ensures Stored() && cifs == [[]]
    {
      cifs := [[]];
      Emptied(0);
    }

    lemma NewestSlot()
      requires Stored() && cifs != []
      ensures lframe == (|cifs| - 1) % 16 && (|cifs| <= 16 ==> (lframe == 15 <==> |cifs| == 16))
    {
    }

    lemma NewestCount()
      requires Stored()
      ensures lframe < 16 == syms.Length && numsyms >= 1 && syms[lframe] <= numsyms
      ensures syms[lframe] == numsyms <==> Complete(cifs, numsyms)
      ensures cifs == [] ==> syms[lframe] == 0
    {
      if cifs != [] {
        assert Holds((|cifs| - 1) % 16, cifs[|cifs| - 1]);
      }
    }
  }

  lemma {:induction false} Appended(h: seq<seq<byte>>, sym: seq<byte>, numsyms: nat)
    ensures var mid := Prepared(h, numsyms);
            mid[..|mid| - 1] + [mid[|mid| - 1] + sym] == Extended(h, sym, numsyms)
  {
    if h == [] || Complete(h, numsyms) {
      assert [] + sym == sym && Prepared(h, numsyms)[..|h|] == h;
    }
  }

  lemma {:induction false} SlotsDiffer(r: nat, n: nat)
    requires r < n < r + 16
    ensures r % 16 != n % 16
  {
  }

  lemma {:induction false} SlotFree(n: nat)
    requires n > 0
    ensures ((n - 1) % 16 + 1) % 16 == n % 16
    ensures forall r :: 0 <= r < n < r + 16 ==> r % 16 != n % 16
  {
  }

  lemma {:induction false} SlotOf(R: nat, d: nat)
    requires R >= 15 && d < 16
    ensures (R % 16 + d) % 16 == (if d == 0 then R else R - 16 + d) % 16
  {
  }

  lemma {:induction false} MapIsDelay(k: nat)
    requires k < 16
    ensures [0, 8, 4, 12, 2, 10, 6, 14, 1, 9, 5, 13, 3, 11, 7, 15][k] == Delay(k)
  {
  }

  // Against the interleaver of section 12 of EN 300 401: CIF r carries bit i of the logical frame
  // r - Delay(i % 16).

  ghost predicate Interleaved(h: seq<seq<byte>>, startcu: nat, subchsz: nat, numsyms: nat, frames: int -> seq<byte>) {
    && AllComplete(h, numsyms) && Within(startcu, subchsz, numsyms)
    && (forall n :: |frames(n)| == BITS_PER_CU * subchsz)
    && forall r, i :: 0 <= r < |h| && 0 <= i < BITS_PER_CU * subchsz ==>
         h[r][BITS_PER_CU * startcu + i] == frames(r - Delay(i % 16))[i]
  }

  /** The deinterleaver mixes two frames: every sixteenth bit comes from the newest frame R, all others
      from frame R - 16. */
  lemma {:induction false} DeinterleavedMixes(h: seq<seq<byte>>, startcu: nat, subchsz: nat, numsyms: nat,
                                              frames: int -> seq<byte>, i: nat)
    requires |h| >= 16 && Interleaved(h, startcu, subchsz, numsyms, frames) && i < BITS_PER_CU * subchsz
    ensures var R := |h| - 1;
            Deinterleaved(h, startcu, subchsz, numsyms)[i] == (if i % 16 == 0 then frames(R) else frames(R - 16))[i]
  {
    hide Delay;
    var r := CifRead(|h| - 1, i);
    assert h[r][BITS_PER_CU * startcu + i] == frames(r - Delay(i % 16))[i];
  }

  /** So the output is the logical frame R - 16 exactly when frames R and R - 16 agree on every
      sixteenth bit. */
  lemma {:induction false} FrameRestoredIff(h: seq<seq<byte>>, startcu: nat, subchsz: nat, numsyms: nat,
                                            frames: int -> seq<byte>)
    requires |h| >= 16 && Interleaved(h, startcu, subchsz, numsyms, frames)
    ensures var R := |h| - 1;
            Deinterleaved(h, startcu, subchsz, numsyms) == frames(R - 16)
            <==> forall i :: 0 <= i < BITS_PER_CU * subchsz && i % 16 == 0 ==> frames(R)[i] == frames(R - 16)[i]
  {
    hide Delay, Deinterleaved;
    var R, lf := |h| - 1, Deinterleaved(h, startcu, subchsz, numsyms);
    forall i | 0 <= i < BITS_PER_CU * subchsz ensures lf[i] == (if i % 16 == 0 then frames(R) else frames(R - 16))[i] {
      DeinterleavedMixes(h, startcu, subchsz, numsyms, frames, i);
    }
  }

  /** Reading from the slot after head, which is the oldest, would restore frame R - 15 always. */
  lemma {:induction false} OldestSlotRestores(h: seq<seq<byte>>, startcu: nat, subchsz: nat, numsyms: nat,
                                              frames: int -> seq<byte>, i: nat)
    requires |h| >= 16 && Interleaved(h, startcu, subchsz, numsyms, frames) && i < BITS_PER_CU * subchsz
    ensures var R, d := |h| - 1, Delay(i % 16);
            && (R % 16 + 1 + d) % 16 == (R - 15 + d) % 16 && R - 15 + d <= R
            && h[R - 15 + d][BITS_PER_CU * startcu + i] == frames(R - 15)[i]
  {
    hide Delay;
    SlotOf(|h| - 1, (1 + Delay(i % 16)) % 16);
  }

  /** A frame of ones after frames of zeros. */
  function OnesAt(size: nat): int -> seq<byte> {
    n => seq(size, i => if n == 15 then 1 else 0)
  }

  function OnesCif(size: nat, r: nat): (c: seq<byte>)
    ensures |c| == BITS_PER_SYMBOL
  {
    seq(BITS_PER_SYMBOL,
        i requires 0 <= i < BITS_PER_SYMBOL => if i < size then OnesAt(size)(r - Delay(i % 16))[i] else 0)
  }

  /** What comes out when frame 15 is all ones and all others are zero is no frame that was sent, for every
      size of a sub-channel that lies in one symbol. */
  lemma {:induction false} NoFrameRestored(subchsz: nat)
    requires 1 <= subchsz && BITS_PER_CU * subchsz <= BITS_PER_SYMBOL
    ensures var size := BITS_PER_CU * subchsz;
            var h, frames := seq(16, r requires 0 <= r < 16 => OnesCif(size, r)), OnesAt(size);
            && Interleaved(h, 0, subchsz, 1, frames)
            && forall n :: Deinterleaved(h, 0, subchsz, 1) != frames(n)
  {
    hide Delay, Deinterleaved;
    var size := BITS_PER_CU * subchsz;
    var h, frames := seq(16, r requires 0 <= r < 16 => OnesCif(size, r)), OnesAt(size);
    DeinterleavedMixes(h, 0, subchsz, 1, frames, 0);
    DeinterleavedMixes(h, 0, subchsz, 1, frames, 1);
    forall n ensures Deinterleaved(h, 0, subchsz, 1) != frames(n) {
      assert frames(n)[0] == frames(n)[1];
    }
  }
}
