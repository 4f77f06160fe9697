/** The Viterbi decoder: metric arrays, packed decisions and the trace back. */
module Viterbi {
  import opened Bits
  import opened ConvCode
  import opened Trellis

  /** Metric of a received symbol value, given the bit that was sent. */
  type Mettab = m: seq<seq<int>> | |m| == 2 && |m[0]| == 256 && |m[1]| == 256
    witness [seq(256, _ => 0), seq(256, _ => 0)]

  /** The four output symbols of a register as one number, first symbol highest. */
  function Sym(r: nat): (v: nat)
    ensures v < 16
  {
    8 * Out(r, 0) + 4 * Out(r, 1) + 2 * Out(r, 2) + Out(r, 3)
  }

  /** Metric of the four symbols received at step t, if the four symbols v were sent. */
  function SymMetric(m: Mettab, y: seq<byte>, t: nat, v: nat): int
    requires 4 * t + 4 <= |y| && v < 16
  {
    m[v / 8][y[4 * t]] + m[v / 4 % 2][y[4 * t + 1]] + m[v / 2 % 2][y[4 * t + 2]] + m[v % 2][y[4 * t + 3]]
  }

  function Received(m: Mettab, y: seq<byte>): Branches {
    (t: nat, r: nat) => if 4 * t + 4 <= |y| then SymMetric(m, y, t, Sym(r)) else 0
  }

  /** The identities behind the butterfly: two tables entries serve four transitions. */
  lemma {:induction false} SymButterfly(i: nat)
    requires i < 64 && i % 2 == 0
    ensures Sym(i + 1) == 15 - Sym(i)
    ensures Sym(i + 64) == Sym(i + 1) && Sym(i + 65) == Sym(i)
  {
    hide Out;
    forall j | 0 <= j < 4
      ensures Out(i + 1, j) == 1 - Out(i, j) && Out(i + 64, j) == 1 - Out(i, j) && Out(i + 65, j) == Out(i, j)
    {
      OutFlipNewest(i, j);
      OutFlipOldest(i, j);
      OutFlipOldest(i + 1, j);
    }
  }

  method SymsEntry(i: nat) returns (sym: nat)
    requires i < 128
    ensures sym == Sym(i)
  {
    hide Out;
    sym := 0;
    for j := 0 to N
      invariant sym == (if j == 0 then 0 else if j == 1 then Out(i, 0)
                        else if j == 2 then 2 * Out(i, 0) + Out(i, 1)
                        else if j == 3 then 4 * Out(i, 0) + 2 * Out(i, 1) + Out(i, 2) else Sym(i))
    {
      var p := TapParity(i, j);
      sym := sym + sym + p;
    }
  }

  method SymsTable() returns (syms: seq<nat>)
    ensures |syms| == 128 && forall r :: 0 <= r < 128 ==> syms[r] == Sym(r)
  {
    hide Sym;
    var tab := new nat[128];
    for i := 0 to 128
      invariant forall r :: 0 <= r < i ==> tab[r] == Sym(r)
    {
      tab[i] := SymsEntry(i);
    }
    syms := tab[..];
  }

  method BranchMetrics(m: Mettab, symbols: array<byte>, t: nat) returns (mets: seq<int>)
    requires 4 * t + 4 <= symbols.Length
    ensures |mets| == 16 && forall v :: 0 <= v < 16 ==> mets[v] == SymMetric(m, symbols[..], t, v)
  {
    var tab := new int[16];
    for i := 0 to 16
      invariant forall v :: 0 <= v < i ==> tab[v] == SymMetric(m, symbols[..], t, v)
    {
      tab[i] := 0;
      tab[i] := tab[i] + m[i / 8 % 2][symbols[4 * t]];
      tab[i] := tab[i] + m[i / 4 % 2][symbols[4 * t + 1]];
      tab[i] := tab[i] + m[i / 2 % 2][symbols[4 * t + 2]];
      tab[i] := tab[i] + m[i % 2][symbols[4 * t + 3]];
    }
    mets := tab[..];
  }

  /** Bits in a machine word: the packed decisions of a step take one word of 64 or two of 32. */
  type wordsize = b: nat | b == 32 || b == 64 witness 64

  function Words(longBits: wordsize): nat {
    if longBits == 64 then 1 else 2
  }

  /** The word and the bit of that word that belong to state s; state 64 is the next step's first. */
  function WordOf(longBits: wordsize, s: nat): nat {
    if s < longBits then 0 else if longBits == 64 || s < 64 then 1 else 2
  }

  function PosOf(longBits: wordsize, s: nat): nat
    requires s <= 64
  {
    if s < longBits then s else if s < 64 then s - 32 else 0
  }

  /** Shifting the mask by two moves it to the next pair of states, or out of the word. */
  lemma {:induction false} MaskShift(longBits: wordsize, i: nat)
    requires i < 64 && i % 2 == 0
    ensures WordOf(longBits, i + 1) == WordOf(longBits, i)
    ensures 2 * Pow2(PosOf(longBits, i)) == Pow2(PosOf(longBits, i + 1))
    ensures var mask := Low(4 * Pow2(PosOf(longBits, i)), longBits);
            if mask == 0 then WordOf(longBits, i + 2) == WordOf(longBits, i) + 1 && PosOf(longBits, i + 2) == 0
            else WordOf(longBits, i + 2) == WordOf(longBits, i) && mask == Pow2(PosOf(longBits, i + 2))
  {
    hide Pow2, Low;
    var k := PosOf(longBits, i);
    Doubled(k);
    Doubled(k + 1);
    LowPow2(k + 2, longBits);
  }

  lemma {:induction false} Doubled(k: nat)
    ensures Pow2(k + 1) == 2 * Pow2(k) > 0 && (k == 0 ==> Pow2(k) == 1)
  {
  }

  lemma {:induction false} LowPow2(n: nat, k: nat)
    ensures Low(Pow2(n), k) == if n < k then Pow2(n) else 0
    decreases k
  {
    if k > 0 {
      if n > 0 {
        LowPow2(n - 1, k - 1);
      } else {
        LowZero(k - 1);
      }
    }
  }

  /** The decision stored for state s in the words that start at index w. */
  function Stored(paths: seq<nat>, w: nat, longBits: wordsize, s: state): bit
    requires w + Words(longBits) <= |paths|
  {
    BitAt(paths[w + WordOf(longBits, s)], PosOf(longBits, s))
  }

  /** `*pp |= mask` for the mask of state s. */
  method SetDecision(paths: array<nat>, ghost w: nat, longBits: wordsize, ghost s: state, pp: nat, mask: nat)
    requires w + Words(longBits) <= paths.Length
    requires pp == w + WordOf(longBits, s) && mask == Pow2(PosOf(longBits, s))
    modifies paths
    ensures forall e: state :: Stored(paths[..], w, longBits, e)
                            == if e == s then 1 else Stored(old(paths[..]), w, longBits, e)
    ensures forall k :: 0 <= k < paths.Length && k != pp ==> paths[k] == old(paths[k])
  {
    paths[pp] := Or(paths[pp], mask);
    forall e: state
      ensures Stored(paths[..], w, longBits, e) == if e == s then 1 else Stored(old(paths[..]), w, longBits, e)
    {
      OrAt(old(paths[pp]), mask, PosOf(longBits, e));
      Pow2At(PosOf(longBits, s), PosOf(longBits, e));
    }
  }

  /** The decisions of step t are stored for the states below i, and no other bit is set. */
  ghost predicate DecisionsStored(paths: seq<nat>, w: nat, longBits: wordsize, bm: Branches, t: nat, i: nat)
    requires w + Words(longBits) <= |paths|
  {
    forall s: state :: Stored(paths, w, longBits, s) == if s < i then Decision(bm, t, s) else 0
  }

  lemma {:induction false} WordsFit(longBits: wordsize, i: nat)
    requires i < 64
    ensures WordOf(longBits, i) < Words(longBits)
  {
  }

  /** After the bit of state i has been set or left, the decisions below i + 1 are stored. */
  lemma {:induction false} OneMore(before: seq<nat>, after: seq<nat>, w: nat, longBits: wordsize,
                                   bm: Branches, t: nat, i: nat)
    requires w + Words(longBits) <= |before| == |after| && i < 64 && DecisionsStored(before, w, longBits, bm, t, i)
    requires forall e: state :: Stored(after, w, longBits, e)
               == if e == i && Decision(bm, t, i) == 1 then 1 else Stored(before, w, longBits, e)
    ensures DecisionsStored(after, w, longBits, bm, t, i + 1)
  {
    hide Stored, Decision;
  }

  /** The packing of the states i and i + 1, and the moving mask. */
  method PackPair(paths: array<nat>, ghost w: nat, longBits: wordsize, ghost bm: Branches, ghost t: nat,
                  ghost i: nat, pp: nat, mask: nat, d0: bool, d1: bool) returns (pp': nat, mask': nat)
    requires w + Words(longBits) <= paths.Length && i < 64 && i % 2 == 0
    requires pp == w + WordOf(longBits, i) && mask == Pow2(PosOf(longBits, i))
    requires DecisionsStored(paths[..], w, longBits, bm, t, i)
    requires d0 == (Decision(bm, t, i) == 1) && d1 == (Decision(bm, t, i + 1) == 1)
    modifies paths
    ensures pp' == w + WordOf(longBits, i + 2) && mask' == Pow2(PosOf(longBits, i + 2))
    ensures DecisionsStored(paths[..], w, longBits, bm, t, i + 2)
    ensures forall k :: 0 <= k < paths.Length && k != pp ==> paths[k] == old(paths[k])
  {
    hide Low, Pow2, WordOf, PosOf, Stored, Decision;
    MaskShift(longBits, i);
    Doubled(0);
    WordsFit(longBits, i);
    ghost var before := paths[..];
    if d0 {
      SetDecision(paths, w, longBits, i, pp, mask);
    }
    ghost var mid := paths[..];
    OneMore(before, mid, w, longBits, bm, t, i);
    if d1 {
      SetDecision(paths, w, longBits, i + 1, pp, 2 * mask);
    }
    OneMore(mid, paths[..], w, longBits, bm, t, i + 1);
    pp', mask' := pp, Low(4 * mask, longBits);
    if mask' == 0 {
      pp', mask' := pp + 1, 1;
    }
  }

  /** The tables and metrics that step t starts from. */
  ghost predicate StepInput(syms: seq<nat>, mets: seq<int>, cmetric: seq<int>, bm: Branches, t: nat)
  {
    && |syms| == 128 && |mets| == 16 && |cmetric| == 64
    && (forall r :: 0 <= r < 128 ==> syms[r] < 16 && bm(t, r) == mets[syms[r]])
    && (forall i :: 0 <= i < 64 && i % 2 == 0 ==> syms[i + 64] == syms[i + 1] && syms[i + 65] == syms[i])
    && (forall s: state :: cmetric[s] == Best(bm, t, s))
  }

  /** Add, compare and select for the states i and i + 1. */
  method Butterfly(syms: seq<nat>, mets: seq<int>, cmetric: seq<int>, nmetric: array<int>, i: nat,
                   ghost bm: Branches, ghost t: nat)
    returns (d0: bool, d1: bool)
    requires StepInput(syms, mets, cmetric, bm, t)
    requires nmetric.Length == 64
    requires i < 64 && i % 2 == 0
    modifies nmetric
    ensures d0 == (Decision(bm, t, i) == 1) && d1 == (Decision(bm, t, i + 1) == 1)
    ensures nmetric[i] == Best(bm, t + 1, i) && nmetric[i + 1] == Best(bm, t + 1, i + 1)
    ensures forall s: state :: s != i && s != i + 1 ==> nmetric[s] == old(nmetric[s])
  {
    var b1 := mets[syms[i]];
    var m0 := cmetric[i / 2] + b1;
    nmetric[i] := m0;
    var b2 := mets[syms[i + 1]];
    b1 := b1 - b2;
    var m1 := cmetric[i / 2 + 32] + b2;
    assert b2 == bm(t, i + 64);
    assert m0 == LowerCand(bm, t, i) && m1 == UpperCand(bm, t, i);
    d0 := m1 > m0;
    if d0 {
      nmetric[i] := m1;
    }
    m0 := m0 - b1;
    nmetric[i + 1] := m0;
    m1 := m1 + b1;
    assert b1 + b2 == bm(t, i + 65);
    assert m0 == LowerCand(bm, t, i + 1) && m1 == UpperCand(bm, t, i + 1);
    d1 := m1 > m0;
    if d1 {
      nmetric[i + 1] := m1;
    }
  }

  /** One step of the decoder: all 64 new metrics, and the decisions packed into words. */
  method AddCompareSelect(syms: seq<nat>, mets: seq<int>, cmetric: seq<int>, nmetric: array<int>,
                          paths: array<nat>, w: nat, longBits: wordsize, ghost bm: Branches, ghost t: nat)
    returns (pp: nat)
    requires w + Words(longBits) <= paths.Length
    requires StepInput(syms, mets, cmetric, bm, t)
    requires nmetric.Length == 64
    requires DecisionsStored(paths[..], w, longBits, bm, t, 0)
    modifies nmetric, paths
    ensures pp == w + Words(longBits)
    ensures forall s: state :: nmetric[s] == Best(bm, t + 1, s)
    ensures DecisionsStored(paths[..], w, longBits, bm, t, 64)
    ensures forall k :: 0 <= k < paths.Length && !(w <= k < pp) ==> paths[k] == old(paths[k])
  {
    var mask := 1;
    var i := 0;
    pp := w;
    while i < 64
      invariant 0 <= i <= 64 && i % 2 == 0
      invariant pp == w + WordOf(longBits, i) && mask == Pow2(PosOf(longBits, i))
      invariant forall s: state :: s < i ==> nmetric[s] == Best(bm, t + 1, s)
      invariant DecisionsStored(paths[..], w, longBits, bm, t, i)
      invariant forall k :: 0 <= k < paths.Length && !(w <= k < w + Words(longBits)) ==> paths[k] == old(paths[k])
    {
      var d0, d1 := Butterfly(syms, mets, cmetric, nmetric, i, bm, t);
      pp, mask := PackPair(paths, w, longBits, bm, t, i, pp, mask, d0, d1);
      i := i + 2;
    }
    if mask != 1 {  // the source would skip a partly filled word here; 64 states fill their words
      assert false;
    }
  }

  /** Index of the first word of step t. */
  function StepWord(longBits: wordsize, t: nat): nat {
    if longBits == 64 then t else 2 * t
  }

  /** The decisions of all steps before t are stored, and all later words are zero. */
  ghost predicate History(paths: seq<nat>, longBits: wordsize, bm: Branches, t: nat)
    requires StepWord(longBits, t) <= |paths|
  {
    && (forall k :: 0 <= k < t ==> DecisionsStored(paths, StepWord(longBits, k), longBits, bm, k, 64))
    && (forall j :: StepWord(longBits, t) <= j < |paths| ==> paths[j] == 0)
  }

  lemma {:induction false} FreshWords(paths: seq<nat>, longBits: wordsize, bm: Branches, t: nat)
    requires StepWord(longBits, t + 1) <= |paths| && History(paths, longBits, bm, t)
    ensures DecisionsStored(paths, StepWord(longBits, t), longBits, bm, t, 0)
  {
    forall s: state ensures Stored(paths, StepWord(longBits, t), longBits, s) == 0 {
      ZeroAt(PosOf(longBits, s));
    }
  }

  lemma {:induction false} HistoryGrows(old_: seq<nat>, paths: seq<nat>, longBits: wordsize, bm: Branches, t: nat)
    requires |old_| == |paths| && StepWord(longBits, t + 1) <= |paths|
    requires History(old_, longBits, bm, t)
    requires DecisionsStored(paths, StepWord(longBits, t), longBits, bm, t, 64)
    requires forall k :: 0 <= k < |paths| && !(StepWord(longBits, t) <= k < StepWord(longBits, t + 1))
                     ==> paths[k] == old_[k]
    ensures History(paths, longBits, bm, t + 1)
  {
    forall k | 0 <= k < t
      ensures DecisionsStored(paths, StepWord(longBits, k), longBits, bm, k, 64)
    {
      assert DecisionsStored(old_, StepWord(longBits, k), longBits, bm, k, 64);
      forall s: state
        ensures Stored(paths, StepWord(longBits, k), longBits, s)
             == Stored(old_, StepWord(longBits, k), longBits, s)
      {
      }
    }
  }

  lemma {:induction false} ReceivedAt(m: Mettab, y: seq<byte>, t: nat, r: nat)
    requires 4 * t + 4 <= |y|
    ensures Received(m, y)(t, r) == SymMetric(m, y, t, Sym(r))
  {
  }

  lemma {:induction false} StepReady(m: Mettab, y: seq<byte>, syms: seq<nat>, mets: seq<int>, cmetric: seq<int>, t: nat)
    requires 4 * t + 4 <= |y| && |syms| == 128 && |mets| == 16 && |cmetric| == 64
    requires forall r :: 0 <= r < 128 ==> syms[r] == Sym(r)
    requires forall v :: 0 <= v < 16 ==> mets[v] == SymMetric(m, y, t, v)
    requires forall s: state :: cmetric[s] == Best(Received(m, y), t, s)
    ensures StepInput(syms, mets, cmetric, Received(m, y), t)
  {
    hide Sym, SymMetric;
    forall r | 0 <= r < 128 ensures syms[r] < 16 && Received(m, y)(t, r) == mets[syms[r]] {
      ReceivedAt(m, y, t, r);
    }
    forall i | 0 <= i < 64 && i % 2 == 0 ensures syms[i + 64] == syms[i + 1] && syms[i + 65] == syms[i] {
      SymButterfly(i);
    }
  }

  /** Metrics and decisions of step t, from the symbols received at that step. */
  method Step(symbols: array<byte>, m: Mettab, syms: seq<nat>, cmetric: seq<int>, nmetric: array<int>,
              paths: array<nat>, w: nat, longBits: wordsize, t: nat) returns (pp: nat)
    requires 4 * t + 4 <= symbols.Length
    requires |syms| == 128 && forall r :: 0 <= r < 128 ==> syms[r] == Sym(r)
    requires |cmetric| == 64 && forall s: state :: cmetric[s] == Best(Received(m, symbols[..]), t, s)
    requires nmetric.Length == 64 && w == StepWord(longBits, t) && StepWord(longBits, t + 1) <= paths.Length
    requires History(paths[..], longBits, Received(m, symbols[..]), t)
    modifies nmetric, paths
    ensures pp == StepWord(longBits, t + 1)
    ensures forall s: state :: nmetric[s] == Best(Received(m, symbols[..]), t + 1, s)
    ensures History(paths[..], longBits, Received(m, symbols[..]), t + 1)
  {
    hide Sym, SymMetric;
    ghost var y, before := symbols[..], paths[..];
    var mets := BranchMetrics(m, symbols, t);
    StepReady(m, y, syms, mets, cmetric, t);
    FreshWords(paths[..], longBits, Received(m, y), t);
    pp := AddCompareSelect(syms, mets, cmetric, nmetric, paths, w, longBits, Received(m, y), t);
    HistoryGrows(before, paths[..], longBits, Received(m, y), t);
  }

  lemma {:induction false} InitialMetrics(bm: Branches, cmetric: seq<int>)
    requires |cmetric| == 64 && forall s: state :: cmetric[s] == Initial(s)
    ensures forall s: state :: cmetric[s] == Best(bm, 0, s)
  {
  }

  /** The trellis part of the decoder, from the first received symbol to the final metric. */
  method RunTrellis(symbols: array<byte>, nbits: nat, m: Mettab, startstate: nat, longBits: wordsize)
    returns (nmetric: array<int>, paths: array<nat>, pp: nat)
    requires startstate == 0 && symbols.Length >= 4 * (nbits + 6)
    ensures fresh(nmetric) && fresh(paths) && nmetric.Length == 64
    ensures forall s: state :: nmetric[s] == Best(Received(m, symbols[..]), nbits + 6, s)
    ensures pp == StepWord(longBits, nbits + 6) == paths.Length
    ensures History(paths[..], longBits, Received(m, symbols[..]), nbits + 6)
  {
    hide Received, Best;
    var bitcnt := -6;
    paths := new nat[StepWord(longBits, nbits + 6)](_ => 0);
    nmetric := new int[64];
    var syms := SymsTable();
    var cmetric := seq(64, i => MINUS_INFINITY)[startstate := 0];
    InitialMetrics(Received(m, symbols[..]), cmetric);
    pp := 0;
    while true
      invariant -6 <= bitcnt < nbits && fresh(nmetric) && fresh(paths)
      invariant nmetric.Length == 64 && paths.Length == StepWord(longBits, nbits + 6)
      invariant |cmetric| == 64
      invariant forall s: state :: cmetric[s] == Best(Received(m, symbols[..]), bitcnt + 6, s)
      invariant pp == StepWord(longBits, bitcnt + 6)
      invariant History(paths[..], longBits, Received(m, symbols[..]), bitcnt + 6)
      decreases nbits - bitcnt
    {
      pp := Step(symbols, m, syms, cmetric, nmetric, paths, pp, longBits, bitcnt + 6);
      bitcnt := bitcnt + 1;
      if bitcnt == nbits {
        break;
      }
      cmetric := nmetric[..];
    }
  }

  /** Chain back from the final state through the stored decisions. */
  method ChainBack(data: array<byte>, nbits: nat, paths: seq<nat>, last: nat, endstate: nat,
                   longBits: wordsize, ghost bm: Branches)
    requires last == StepWord(longBits, nbits + 6) <= |paths|
    requires History(paths, longBits, bm, nbits + 6) && endstate == 0
    requires data.Length >= nbits
    modifies data
    ensures data[..nbits] == Decoded(bm, nbits)
    ensures data[nbits..] == old(data[nbits..])
  {
    hide StateAt, Survivor, SurvivorStart, Decoded, Decision, And, Pow2, History;
    for k := 0 to nbits
      invariant forall j :: 0 <= j < k ==> data[j] == 0
      invariant forall j :: nbits <= j < data.Length ==> data[j] == old(data[j])
    {
      data[k] := 0;
    }
    ghost var s0, x := SurvivorStart(bm, nbits + 6, 0), Survivor(bm, nbits + 6, 0);
    SurvivorAttains(bm, nbits + 6, 0);
    var i := nbits - 1;
    var e, pp := endstate, last;
    while i >= 0
      invariant -1 <= i < nbits
      invariant pp == StepWord(longBits, i + 7)
      invariant e < 64 && e == StateAt(s0, x, i + 7)
      invariant forall j :: 0 <= j <= i ==> data[j] == 0
      invariant forall j :: i < j < nbits ==> data[j] == Decoded(bm, nbits)[j]
      invariant forall j :: nbits <= j < data.Length ==> data[j] == old(data[j])
    {
      pp := pp - Words(longBits);
      ReadDecision(paths, longBits, bm, nbits + 6, i + 6, e);
      DecisionTellsBit(bm, nbits, i);
      if And(paths[pp + WordOf(longBits, e)], Pow2(PosOf(longBits, e))) != 0 {
        e := e + 64;
        data[i] := 1;
      }
      e := e / 2;
      i := i - 1;
    }
  }

  lemma {:induction false} ReadDecision(paths: seq<nat>, longBits: wordsize, bm: Branches, n: nat, t: nat, e: state)
    requires t < n && StepWord(longBits, n) <= |paths| && History(paths, longBits, bm, n)
    ensures var w := paths[StepWord(longBits, t) + WordOf(longBits, e)];
            And(w, Pow2(PosOf(longBits, e))) != 0 <==> Decision(bm, t, e) == 1
  {
    assert DecisionsStored(paths, StepWord(longBits, t), longBits, bm, t, 64);
    assert Stored(paths, StepWord(longBits, t), longBits, e) == Decision(bm, t, e);
    AndPow2(paths[StepWord(longBits, t) + WordOf(longBits, e)], PosOf(longBits, e));
  }

  /** The decoder as every caller uses it.  The low six bits of both states are masked off. */
  method KViterbi(data: array?<byte>, symbols: array<byte>, nbits: nat, m: Mettab,
                  startstate: nat, endstate: nat, longBits: wordsize) returns (metric: nat)
    requires startstate < 64 && endstate < 64
    requires symbols.Length >= 4 * (nbits + 6)
    requires data != null ==> data != symbols && data.Length >= nbits
    modifies if data == null then {} else {data}
    ensures metric == Best(Received(m, old(symbols[..])), nbits + 6, 0) % 0x1_0000_0000
    ensures data != null ==> data[..nbits] == Decoded(Received(m, old(symbols[..])), nbits)
    ensures data != null ==> data[nbits..] == old(data[nbits..])
  {
    var start := startstate - startstate % 64;
    var end := endstate - endstate % 64;
    var nmetric, paths, pp := RunTrellis(symbols, nbits, m, start, longBits);
    metric := nmetric[end] % 0x1_0000_0000;
    if data == null {
      return;
    }
    ChainBack(data, nbits, paths[..], pp, end, longBits, Received(m, symbols[..]));
  }
}
