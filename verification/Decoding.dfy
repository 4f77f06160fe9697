/** What the decoder's output means for a receiver: the nearest codeword, and the very
    bits that were sent when the channel only erases. */
module Decoding {
  import opened Bits
  import opened ConvCode
  import opened Trellis
  import opened Viterbi
  import opened Puncturing

  /** The symbols that encoding x from state s produces. */
  function Code(s: state, x: seq<bit>): (c: seq<bit>)
    ensures |c| == 4 * |x|
  {
    seq(4 * |x|, i requires 0 <= i < 4 * |x| => Out(RegAt(s, x, i / 4), i % 4))
  }

  /** The code word of the data bits u: from state 0 back to state 0. */
  function Codeword(u: seq<bit>): (c: seq<bit>)
    ensures |c| == 4 * (|u| + 6)
  {
    Code(0, Flushed(u))
  }

  const ERASED: byte := 128

  function SoftSymbol(b: bit): byte {
    127 + 2 * b
  }

  predicate Soft(y: seq<byte>) {
    forall i :: 0 <= i < |y| ==> y[i] == ERASED || y[i] == SoftSymbol(0) || y[i] == SoftSymbol(1)
  }

  /** A metric table that is symmetric on the three symbol values in use: g for a match,
      w for a mismatch, and no preference for an erasure. */
  predicate Symmetric(m: Mettab, g: int, w: int) {
    && g > w
    && m[0][127] == g && m[1][129] == g
    && m[1][127] == w && m[0][129] == w
    && m[0][128] == m[1][128]
  }

  function Mismatch(c: bit, v: byte): nat {
    if v != ERASED && v != SoftSymbol(c) then 1 else 0
  }

  /** Hamming distance on the first n positions, not counting erasures. */
  function Distance(c: seq<bit>, y: seq<byte>, n: nat): (d: nat)
    requires n <= |c| && n <= |y|
    ensures d <= n
  {
    if n == 0 then 0 else Distance(c, y, n - 1) + Mismatch(c[n - 1], y[n - 1])
  }

  /** The metric of a perfect match. */
  function Ideal(m: Mettab, g: int, y: seq<byte>, n: nat): int
    requires n <= |y|
  {
    if n == 0 then 0 else Ideal(m, g, y, n - 1) + (if y[n - 1] == ERASED then m[0][128] else g)
  }

  /** Sum of the metrics of the first n symbols. */
  function Total(m: Mettab, c: seq<bit>, y: seq<byte>, n: nat): int
    requires n <= |c| && n <= |y|
  {
    if n == 0 then 0 else Total(m, c, y, n - 1) + m[c[n - 1]][y[n - 1]]
  }

  lemma {:induction false} TotalIsDistance(m: Mettab, g: int, w: int, c: seq<bit>, y: seq<byte>, n: nat)
    requires Symmetric(m, g, w) && Soft(y) && n <= |c| && n <= |y|
    ensures Total(m, c, y, n) == Ideal(m, g, y, n) - (g - w) * Distance(c, y, n)
    decreases n
  {
    if n > 0 {
      TotalIsDistance(m, g, w, c, y, n - 1);
      var d, k := Distance(c, y, n - 1), Mismatch(c[n - 1], y[n - 1]);
      assert (g - w) * (d + k) == (g - w) * d + (g - w) * k;
    }
  }

  lemma {:induction false} SymDigits(r: nat)
    ensures Sym(r) / 8 == Out(r, 0) && Sym(r) / 4 % 2 == Out(r, 1)
    ensures Sym(r) / 2 % 2 == Out(r, 2) && Sym(r) % 2 == Out(r, 3)
  {
    hide Out;
  }

  lemma {:induction false} BranchIsFourSymbols(m: Mettab, y: seq<byte>, s: state, x: seq<bit>, t: nat)
    requires t < |x| && 4 * t + 4 <= |y|
    ensures Received(m, y)(t, RegAt(s, x, t))
         == Total(m, Code(s, x), y, 4 * t + 4) - Total(m, Code(s, x), y, 4 * t)
  {
    hide Sym, Out, Code, RegAt, Total;
    SymDigits(RegAt(s, x, t));
    CodeOfStep(s, x, t);
    TotalFour(m, Code(s, x), y, 4 * t);
  }

  lemma {:induction false} CodeOfStep(s: state, x: seq<bit>, t: nat)
    requires t < |x|
    ensures var r, c := RegAt(s, x, t), Code(s, x);
            c[4 * t] == Out(r, 0) && c[4 * t + 1] == Out(r, 1) && c[4 * t + 2] == Out(r, 2) && c[4 * t + 3] == Out(r, 3)
  {
    hide Out, RegAt;
    assert (4 * t) % 4 == 0 && (4 * t + 1) % 4 == 1 && (4 * t + 2) % 4 == 2 && (4 * t + 3) % 4 == 3;
  }

  lemma {:induction false} TotalFour(m: Mettab, c: seq<bit>, y: seq<byte>, k: nat)
    requires k + 4 <= |c| && k + 4 <= |y|
    ensures Total(m, c, y, k + 4) == Total(m, c, y, k) + m[c[k]][y[k]] + m[c[k + 1]][y[k + 1]]
                                     + m[c[k + 2]][y[k + 2]] + m[c[k + 3]][y[k + 3]]
  {
    assert Total(m, c, y, k + 2) == Total(m, c, y, k) + m[c[k]][y[k]] + m[c[k + 1]][y[k + 1]];
  }

  lemma {:induction false} ScoreIsTotal(m: Mettab, y: seq<byte>, s: state, x: seq<bit>, t: nat)
    requires t <= |x| && 4 * t <= |y|
    ensures Score(Received(m, y), s, x, t) == Initial(s) + Total(m, Code(s, x), y, 4 * t)
    decreases t
  {
    hide Received, Code, RegAt;
    if t > 0 {
      ScoreIsTotal(m, y, s, x, t - 1);
      BranchIsFourSymbols(m, y, s, x, t - 1);
    }
  }

  /** The score of a path is the ideal metric less a penalty per mismatch. */
  lemma {:induction false} ScoreIsDistance(m: Mettab, g: int, w: int, y: seq<byte>, s: state, x: seq<bit>)
    requires Symmetric(m, g, w) && Soft(y) && 4 * |x| <= |y|
    ensures Score(Received(m, y), s, x, |x|)
         == Initial(s) + Ideal(m, g, y, 4 * |x|) - (g - w) * Distance(Code(s, x), y, 4 * |x|)
  {
    ScoreIsTotal(m, y, s, x, |x|);
    TotalIsDistance(m, g, w, Code(s, x), y, 4 * |x|);
  }

  lemma {:induction false} MulMono(d: int, a: int, b: int)
    requires d >= 0 && a <= b
    ensures d * a <= d * b
  {
  }

  lemma {:induction false} LessPenalty(d: int, a: int, b: int)
    requires d > 0 && d * a <= d * b
    ensures a <= b
  {
    if b < a {
      MulMono(d, b + 1, a);
    }
  }

  /** -999999 behaves as minus infinity while the whole message cannot earn as much. */
  lemma {:induction false} StartsInZero(m: Mettab, g: int, w: int, y: seq<byte>, n: nat)
    requires Symmetric(m, g, w) && Soft(y) && 4 * (n + 6) <= |y|
    requires (n + 6) * 4 * (g - w) < 999999
    ensures SurvivorStart(Received(m, y), n + 6, 0) == 0
  {
    hide *;
    StartsInZeroFor(m, g, w, y, seq(n, i => 0));
  }

  lemma {:induction false} StartsInZeroFor(m: Mettab, g: int, w: int, y: seq<byte>, u: seq<bit>)
    requires Symmetric(m, g, w) && Soft(y) && 4 * (|u| + 6) <= |y|
    requires (|u| + 6) * 4 * (g - w) < 999999
    ensures SurvivorStart(Received(m, y), |u| + 6, 0) == 0
  {
    hide Received, Code, Decoded, Flushed, Score, Best, Distance;
    var bm, n := Received(m, y), |u|;
    var len := 4 * (n + 6);
    var s0, best := SurvivorStart(bm, n + 6, 0), Flushed(Decoded(bm, n));
    DecodedIsOptimal(bm, n, 0, u);
    ScoreIsDistance(m, g, w, y, 0, Flushed(u));
    ScoreIsDistance(m, g, w, y, s0, best);
    assert (n + 6) * 4 * (g - w) == (g - w) * len;
    MulMono(g - w, Distance(Code(0, Flushed(u)), y, len), len);
    MulMono(g - w, 0, Distance(Code(s0, best), y, len));
  }

  /** For every received word the decoder delivers a nearest code word. */
  lemma {:induction false} NearestCodeword(m: Mettab, g: int, w: int, y: seq<byte>, n: nat, u: seq<bit>)
    requires Symmetric(m, g, w) && Soft(y) && |y| >= 4 * (n + 6) && |u| == n
    requires (n + 6) * 4 * (g - w) < 999999
    ensures Distance(Codeword(Decoded(Received(m, y), n)), y, 4 * (n + 6)) <= Distance(Codeword(u), y, 4 * (n + 6))
  {
    hide Received, Code, Decoded, Flushed, Score, Best;
    var bm := Received(m, y);
    var best, x := Flushed(Decoded(bm, n)), Flushed(u);
    StartsInZero(m, g, w, y, n);
    DecodedIsOptimal(bm, n, 0, u);
    ScoreIsDistance(m, g, w, y, 0, x);
    ScoreIsDistance(m, g, w, y, 0, best);
    LessPenalty(g - w, Distance(Code(0, best), y, 4 * (n + 6)), Distance(Code(0, x), y, 4 * (n + 6)));
  }

  /** A channel that erases the symbols outside the mask and flips none. */
  predicate Erases(c: seq<bit>, mask: seq<bool>, y: seq<byte>)
  {
    && |mask| == |c| == |y|
    && forall i :: 0 <= i < |c| ==> y[i] == if mask[i] then SoftSymbol(c[i]) else ERASED
  }

  lemma {:induction false} DistanceZero(c: seq<bit>, y: seq<byte>, n: nat)
    requires n <= |c| && n <= |y|
    ensures Distance(c, y, n) == 0 <==> forall i :: 0 <= i < n ==> Mismatch(c[i], y[i]) == 0
    decreases n
  {
    if n > 0 {
      DistanceZero(c, y, n - 1);
    }
  }

  /** Two inputs whose code symbols agree on every first symbol are equal: the first
      generator taps the newest bit. */
  lemma {:induction false} FirstSymbolsTellInput(x: seq<bit>, z: seq<bit>, t: nat)
    requires t <= |x| == |z|
    requires forall k :: 0 <= k < t ==> Out(RegAt(0, x, k), 0) == Out(RegAt(0, z, k), 0)
    ensures forall k :: 0 <= k < t ==> x[k] == z[k]
    decreases t
  {
    hide Out;
    if t > 0 {
      FirstSymbolsTellInput(x, z, t - 1);
      PrefixState(0, x, z, t - 1);
      NewestBitTold(StateAt(0, x, t - 1), RegAt(0, x, t - 1), RegAt(0, z, t - 1));
    }
  }

  lemma {:induction false} NewestBitTold(s: nat, r: nat, r': nat)
    requires 2 * s <= r <= 2 * s + 1 && 2 * s <= r' <= 2 * s + 1 && Out(r, 0) == Out(r', 0)
    ensures r == r'
  {
    hide Out;
    OutFlipNewest(2 * s, 0);
  }

  /** Erasures that spare every first symbol are repaired, for messages of any length. */
  lemma {:induction false} NoiselessRoundTrip(m: Mettab, g: int, w: int, u: seq<bit>, mask: seq<bool>, y: seq<byte>)
    requires Symmetric(m, g, w) && Erases(Codeword(u), mask, y) && KeepsFirst(mask)
    ensures Decoded(Received(m, y), |u|) == u
  {
    hide Received, Code, Decoded, Flushed, Score, Best, Out;
    var bm, n := Received(m, y), |u|;
    var s0, best, x := SurvivorStart(bm, n + 6, 0), Flushed(Decoded(bm, n)), Flushed(u);
    var len := 4 * (n + 6);
    DecodedIsOptimal(bm, n, 0, u);
    ScoreIsDistance(m, g, w, y, 0, x);
    ScoreIsDistance(m, g, w, y, s0, best);
    DistanceZero(Code(0, x), y, len);
    if Distance(Code(s0, best), y, len) > 0 {
      MulMono(g - w, 1, Distance(Code(s0, best), y, len));
    }
    assert s0 == 0 && Distance(Code(0, best), y, len) == 0;
    ZeroDistanceFirst(best, x, mask, y);
    FirstSymbolsTellInput(best, x, n + 6);
    FlushedInjective(Decoded(bm, n), u);
  }

  lemma {:induction false} ZeroDistanceFirst(z: seq<bit>, x: seq<bit>, mask: seq<bool>, y: seq<byte>)
    requires |z| == |x| && Erases(Code(0, x), mask, y) && KeepsFirst(mask)
    requires Distance(Code(0, z), y, 4 * |x|) == 0
    ensures forall k :: 0 <= k < |x| ==> Out(RegAt(0, z, k), 0) == Out(RegAt(0, x, k), 0)
  {
    hide Out;
    DistanceZero(Code(0, z), y, 4 * |x|);
    forall k | 0 <= k < |x| ensures Out(RegAt(0, z, k), 0) == Out(RegAt(0, x, k), 0) {
      var i := 4 * k;
      assert mask[i] && Mismatch(Code(0, z)[i], y[i]) == 0 && y[i] == SoftSymbol(Code(0, x)[i]);
    }
  }

  lemma {:induction false} FlushedInjective(u: seq<bit>, v: seq<bit>)
    requires |u| == |v| && forall k :: 0 <= k < |u| + 6 ==> Flushed(u)[k] == Flushed(v)[k]
    ensures u == v
  {
    forall k | 0 <= k < |u| ensures u[k] == v[k] {
      assert Flushed(u)[k] == u[k] && Flushed(v)[k] == v[k];
    }
  }
}
