/** How many errors the decoder corrects, for any puncturing that keeps the first symbols of every group. */
module ErrorCorrection {
  import opened Bits
  import opened ConvCode
  import opened Trellis
  import opened Viterbi
  import opened Decoding
  import opened Depuncture
  import opened FreeDistance

  /** The first k symbols of group q are kept. */
  predicate KeepsGroup(mask: seq<bool>, k: nat, q: nat)
    requires 4 * q + 4 <= |mask|
  {
    (k > 0 ==> mask[4 * q]) && (k > 1 ==> mask[4 * q + 1]) && (k > 2 ==> mask[4 * q + 2]) && (k > 3 ==> mask[4 * q + 3])
  }

  /** The first k symbols of every group of four are kept. */
  predicate KeepsEach(mask: seq<bool>, k: nat) {
    |mask| % 4 == 0 && forall q :: 0 <= q < |mask| / 4 ==> KeepsGroup(mask, k, q)
  }

  /** Hard symbols where the mask keeps them, erasures elsewhere. */
  predicate Hard(mask: seq<bool>, y: seq<byte>) {
    |y| == |mask| && Soft(y) && forall i :: 0 <= i < |y| ==> (y[i] == ERASED <==> !mask[i])
  }

  // The distances of two code words from a received word, together.

  function Both(c: seq<bit>, d: seq<bit>, y: seq<byte>, n: nat): nat
    requires n <= |c| && n <= |d| && n <= |y|
  {
    Distance(c, y, n) + Distance(d, y, n)
  }

  /** Where two code words differ, a symbol kept counts for one of them. */
  lemma {:induction false} OneOfTwo(mask: seq<bool>, c: seq<bit>, d: seq<bit>, y: seq<byte>, i: nat)
    requires Hard(mask, y) && i < |y| && i < |c| && i < |d|
    ensures Both(c, d, y, i + 1) >= Both(c, d, y, i) + Flag(mask[i] && c[i] != d[i])
  {
  }

  lemma {:induction false} GroupGrows(mask: seq<bool>, c: seq<bit>, d: seq<bit>, y: seq<byte>, i: nat)
    requires Hard(mask, y) && i + 4 <= |y| && i + 4 <= |c| && i + 4 <= |d|
    ensures Both(c, d, y, i + 4) >= Both(c, d, y, i) + Flag(mask[i] && c[i] != d[i])
            + Flag(mask[i + 1] && c[i + 1] != d[i + 1]) + Flag(mask[i + 2] && c[i + 2] != d[i + 2])
            + Flag(mask[i + 3] && c[i + 3] != d[i + 3])
  {
    hide Both, Hard;
    OneOfTwo(mask, c, d, y, i);
    OneOfTwo(mask, c, d, y, i + 1);
    OneOfTwo(mask, c, d, y, i + 2);
    OneOfTwo(mask, c, d, y, i + 3);
  }

  /** Whether the four symbols of a step differ depends on the differences of the paths alone. */
  lemma {:induction false} CodeDiffers(x: seq<bit>, z: seq<bit>, t: nat, j: nat)
    requires |x| == |z| && t < |x| && j < N
    ensures Code(0, x)[4 * t + j] != Code(0, z)[4 * t + j] <==>
              Tapped(j, Differ(x, z, t), Differ(x, z, t + 1), Differ(x, z, t + 2), Differ(x, z, t + 3),
                     Differ(x, z, t + 4), Differ(x, z, t + 5), Differ(x, z, t + 6))
  {
    hide Code, RegAt, Out, Differ, Tapped;
    CodeOfStep(0, x, t);
    CodeOfStep(0, z, t);
    SymbolsDiffer(j, x, z, t);
    assert j == 0 || j == 1 || j == 2 || j == 3;
  }

  /** Two code words gain at least the weight of their differences in every step. */
  lemma {:induction false} StepGrows(mask: seq<bool>, x: seq<bit>, z: seq<bit>, y: seq<byte>, k: nat, t: nat)
    requires Hard(mask, y) && KeepsEach(mask, k) && 1 <= k <= N && |x| == |z| && |y| == 4 * |x| && t < |x|
    ensures Both(Code(0, x), Code(0, z), y, 4 * t + 4) >= Both(Code(0, x), Code(0, z), y, 4 * t) + WeightAt(k, x, z, t)
  {
    hide Both, Soft, Code, Differ, Tapped, Flag;
    CodeDiffers(x, z, t, 0);
    CodeDiffers(x, z, t, 1);
    CodeDiffers(x, z, t, 2);
    CodeDiffers(x, z, t, 3);
    GroupGrows(mask, Code(0, x), Code(0, z), y, 4 * t);
    assert t < |mask| / 4 && KeepsGroup(mask, k, t);
  }

  /** So together the distances are at least the weight of the path. */
  lemma {:induction false} PathGrows(mask: seq<bool>, x: seq<bit>, z: seq<bit>, y: seq<byte>, k: nat, t: nat)
    requires Hard(mask, y) && KeepsEach(mask, k) && 1 <= k <= N && |x| == |z| && |y| == 4 * |x| && t <= |x|
    ensures Both(Code(0, x), Code(0, z), y, 4 * t) >= PathWeight(k, x, z, t)
    decreases t
  {
    hide Both, Hard, KeepsEach, Code, WeightAt;
    if t > 0 {
      PathGrows(mask, x, z, y, k, t - 1);
      StepGrows(mask, x, z, y, k, t - 1);
    }
  }

  /** Different messages are at least the free distance apart, through any received word. */
  lemma {:induction false} Apart(mask: seq<bool>, u: seq<bit>, v: seq<bit>, y: seq<byte>, k: nat)
    requires |u| == |v| && u != v && |y| == 4 * (|u| + 6) && Hard(mask, y) && KeepsEach(mask, k) && 1 <= k <= N
    ensures Distance(Codeword(u), y, |y|) + Distance(Codeword(v), y, |y|) >= Free(k)
  {
    hide Code, Distance, Hard, KeepsEach, PathWeight;
    PathGrows(mask, Flushed(u), Flushed(v), y, k, |u| + 6);
    MessagesApart(k, u, v);
  }

  /** Among the paths that the decoder weighs, the one it picks starts in state 0. */
  lemma {:induction false} PickStartsInZero(m: Mettab, g: int, w: int, y: seq<byte>, u: seq<bit>)
    requires Symmetric(m, g, w) && Soft(y) && |y| == 4 * (|u| + 6)
    requires (g - w) * Distance(Codeword(u), y, |y|) < 999999
    ensures SurvivorStart(Received(m, y), |u| + 6, 0) == 0
    ensures Distance(Codeword(Decoded(Received(m, y), |u|)), y, |y|) <= Distance(Codeword(u), y, |y|)
  {
    hide Received, Code, Decoded, Flushed, Score, Best;
    var bm, n := Received(m, y), |u|;
    var s0, best := SurvivorStart(bm, n + 6, 0), Flushed(Decoded(bm, n));
    DecodedIsOptimal(bm, n, 0, u);
    ScoreIsDistance(m, g, w, y, 0, Flushed(u));
    ScoreIsDistance(m, g, w, y, s0, best);
    MulMono(g - w, 0, Distance(Code(s0, best), y, |y|));
    assert s0 == 0;
    LessPenalty(g - w, Distance(Code(0, best), y, |y|), Distance(Code(0, Flushed(u)), y, |y|));
  }

  /** If the first k symbols of every group of four are kept, fewer errors than half the free distance are
      corrected, wherever they are and however long the message is. */
  lemma {:induction false} ErrorsCorrected(m: Mettab, g: int, w: int, mask: seq<bool>, y: seq<byte>,
                                           u: seq<bit>, k: nat)
    requires Symmetric(m, g, w) && |y| == 4 * (|u| + 6) && Hard(mask, y) && KeepsEach(mask, k) && 1 <= k <= N
    requires 2 * Distance(Codeword(u), y, |y|) < Free(k) && (g - w) * Distance(Codeword(u), y, |y|) < 999999
    ensures Decoded(Received(m, y), |u|) == u
  {
    hide Received, Code, Decoded, Distance, KeepsEach, Free;
    PickStartsInZero(m, g, w, y, u);
    var v := Decoded(Received(m, y), |u|);
    if v != u {
      Apart(mask, u, v, y, k);
    }
  }

  /** Positions in which two words differ, among the first n. */
  function Errors(a: seq<bit>, b: seq<bit>, n: nat): (e: nat)
    requires n <= |a| && n <= |b|
    ensures e <= n
  {
    if n == 0 then 0 else Errors(a, b, n - 1) + Flag(a[n - 1] != b[n - 1])
  }

  lemma {:induction false} ErrorsPrefix(a: seq<bit>, a': seq<bit>, b: seq<bit>, n: nat)
    requires n <= |a| && n <= |a'| && n <= |b| && forall i :: 0 <= i < n ==> a[i] == a'[i]
    ensures Errors(a, b, n) == Errors(a', b, n)
    decreases n
  {
    if n > 0 {
      ErrorsPrefix(a, a', b, n - 1);
    }
  }

  lemma {:induction false} FilledIsHard(mask: seq<bool>, b: seq<bit>)
    requires Count(mask, |mask|) <= |b|
    ensures Hard(mask, Filled(mask, b))
  {
    hide Count;
    forall i | 0 <= i < |mask|
      ensures var v := Filled(mask, b)[i];
              (v == ERASED <==> !mask[i]) && (v == ERASED || v == SoftSymbol(0) || v == SoftSymbol(1))
    {
      if mask[i] {
        KeptIndex(mask, i);
        SoftOfBit(b[Count(mask, i)]);
      }
    }
  }

  lemma {:induction false} KeptIndex(mask: seq<bool>, i: nat)
    requires i < |mask| && mask[i]
    ensures Count(mask, i) < Count(mask, |mask|)
  {
    CountMono(mask, i + 1, |mask|);
  }

  lemma {:induction false} SoftOfBit(b: bit)
    ensures SoftBit(b) == SoftSymbol(b) != ERASED
  {
  }

  /** The distance of the depunctured word is the number of transmission errors. */
  lemma {:induction false} DistanceIsErrors(mask: seq<bool>, c: seq<bit>, b: seq<bit>, n: nat)
    requires |c| == |mask| && Count(mask, |mask|) <= |b| && n <= |mask|
    ensures Count(mask, n) <= |b|
    ensures Distance(c, Filled(mask, b), n) == Errors(Punctured(mask, c, n), b, Count(mask, n))
    decreases n
  {
    hide Filled;
    CountMono(mask, n, |mask|);
    if n > 0 {
      DistanceIsErrors(mask, c, b, n - 1);
      FilledNext(mask, c, b, n - 1);
      ErrorsPrefix(Punctured(mask, c, n - 1), Punctured(mask, c, n), b, Count(mask, n - 1));
    }
  }

  lemma {:induction false} FilledNext(mask: seq<bool>, c: seq<bit>, b: seq<bit>, i: nat)
    requires |c| == |mask| && Count(mask, |mask|) <= |b| && i < |mask|
    ensures mask[i] ==> Count(mask, i) < |b| && Mismatch(c[i], Filled(mask, b)[i]) == Flag(c[i] != b[Count(mask, i)])
    ensures !mask[i] ==> Mismatch(c[i], Filled(mask, b)[i]) == 0
  {
    hide Count;
    if mask[i] {
      KeptIndex(mask, i);
      SoftOfBit(b[Count(mask, i)]);
    }
  }

  /** The same for transmission errors. */
  lemma {:induction false} TransmissionCorrected(m: Mettab, g: int, w: int, mask: seq<bool>, u: seq<bit>,
                                                 b: seq<bit>, k: nat)
    requires Symmetric(m, g, w) && |mask| == 4 * (|u| + 6) && KeepsEach(mask, k) && 1 <= k <= N
        && |b| == Count(mask, |mask|)
    requires var e := Errors(Punctured(mask, Codeword(u), |mask|), b, |b|); 2 * e < Free(k) && (g - w) * e < 999999
    ensures Decoded(Received(m, Filled(mask, b)), |u|) == u
  {
    hide Received, Code, Decoded, Distance, KeepsEach, Filled, Count, Punctured, Free;
    FilledIsHard(mask, b);
    DistanceIsErrors(mask, Codeword(u), b, |mask|);
    ErrorsCorrected(m, g, w, mask, Filled(mask, b), u, k);
  }
}
