/** The 64-state trellis of the mother code: paths, their scores, and the dynamic
    program whose value is the best score of any path. */
module Trellis {
  import opened Bits

  type state = s: nat | s < 64

  const MINUS_INFINITY := -999999

  function Next(s: state, b: bit): state {
    if s < 32 then 2 * s + b else 2 * (s - 32) + b
  }

  /** State after the first t bits of x, starting in state s. */
  function StateAt(s: state, x: seq<bit>, t: nat): state
    requires t <= |x|
    decreases t
  {
    if t == 0 then s else Next(StateAt(s, x, t - 1), x[t - 1])
  }

  /** The seven bits of the shift register when bit t of x has just entered it. */
  function RegAt(s: state, x: seq<bit>, t: nat): (r: nat)
    requires t < |x|
    ensures r < 128
  {
    2 * StateAt(s, x, t) + x[t]
  }

  /** Metric of the transition that leaves r in the shift register, at each step. */
  type Branches = (nat, nat) -> int

  function Initial(s: state): int {
    if s == 0 then 0 else MINUS_INFINITY
  }

  /** Initial metric plus branch metrics of the first t steps of a path. */
  function Score(bm: Branches, s: state, x: seq<bit>, t: nat): int
    requires t <= |x|
    decreases t
  {
    if t == 0 then Initial(s)
    else Score(bm, s, x, t - 1) + bm(t - 1, RegAt(s, x, t - 1))
  }

  /** Best score of the paths of length t that end in s, by add-compare-select. */
  function Best(bm: Branches, t: nat, s: state): int
    decreases t, bm, 1
  {
    if t == 0 then Initial(s)
    else if Decision(bm, t - 1, s) == 1 then UpperCand(bm, t - 1, s)
    else LowerCand(bm, t - 1, s)
  }

  function LowerCand(bm: Branches, t: nat, s: state): int
    decreases t, bm, 2
  {
    Best(bm, t, s / 2) + bm(t, s)
  }

  function UpperCand(bm: Branches, t: nat, s: state): int
    decreases t, bm, 2
  {
    Best(bm, t, s / 2 + 32) + bm(t, s + 64)
  }

  /** 1 when the path into s through the upper half of the states wins step t. */
  function Decision(bm: Branches, t: nat, s: state): bit
    decreases t, bm, 3
  {
    if UpperCand(bm, t, s) > LowerCand(bm, t, s) then 1 else 0
  }

  function Pred(bm: Branches, t: nat, s: state): state
  {
    s / 2 + 32 * Decision(bm, t, s)
  }

  /** The path that the decisions lead back along from state s at time t. */
  function SurvivorStart(bm: Branches, t: nat, s: state): state
    decreases t, bm
  {
    if t == 0 then s else SurvivorStart(bm, t - 1, Pred(bm, t - 1, s))
  }

  function Survivor(bm: Branches, t: nat, s: state): (x: seq<bit>)
    ensures |x| == t
    decreases t, bm
  {
    if t == 0 then [] else Survivor(bm, t - 1, Pred(bm, t - 1, s)) + [s % 2]
  }

  /** The two transitions into a state. */
  lemma {:induction false} NextPred(p: state, b: bit)
    ensures var e := Next(p, b);
            e % 2 == b && p == (if p < 32 then e / 2 else e / 2 + 32)
                       && 2 * p + b == (if p < 32 then e else e + 64)
  {
  }

  lemma {:induction false} BestOfBoth(bm: Branches, t: nat, s: state)
    ensures Best(bm, t + 1, s) >= Best(bm, t, s / 2) + bm(t, s)
    ensures Best(bm, t + 1, s) >= Best(bm, t, s / 2 + 32) + bm(t, s + 64)
  {
    assert Best(bm, t + 1, s) >= LowerCand(bm, t, s) && Best(bm, t + 1, s) >= UpperCand(bm, t, s);
  }

  lemma {:induction false} BestStart(bm: Branches, s: state)
    ensures Best(bm, 0, s) == Initial(s)
  {
  }

  /** No path into a state scores better than the dynamic program says. */
  lemma {:induction false} BestIsUpperBound(bm: Branches, s: state, x: seq<bit>, t: nat)
    requires t <= |x|
    ensures Score(bm, s, x, t) <= Best(bm, t, StateAt(s, x, t))
    decreases t
  {
    hide Best, Next;
    BestStart(bm, s);
    if t > 0 {
      BestIsUpperBound(bm, s, x, t - 1);
      NextPred(StateAt(s, x, t - 1), x[t - 1]);
      BestOfBoth(bm, t - 1, StateAt(s, x, t));
    }
  }

  /** What happens up to time t depends on the first t bits only. */
  lemma {:induction false} PrefixState(s: state, x: seq<bit>, z: seq<bit>, t: nat)
    requires t <= |x| && t <= |z| && forall i :: 0 <= i < t ==> x[i] == z[i]
    ensures StateAt(s, x, t) == StateAt(s, z, t)
    decreases t
  {
    if t > 0 {
      PrefixState(s, x, z, t - 1);
    }
  }

  lemma {:induction false} PrefixScore(bm: Branches, s: state, x: seq<bit>, z: seq<bit>, t: nat)
    requires t <= |x| && t <= |z| && forall i :: 0 <= i < t ==> x[i] == z[i]
    ensures Score(bm, s, x, t) == Score(bm, s, z, t)
    decreases t
  {
    if t > 0 {
      PrefixScore(bm, s, x, z, t - 1);
      PrefixState(s, x, z, t - 1);
    }
  }

  /** The best score is reached through the predecessor that the decision names. */
  lemma {:induction false} BestOfPred(bm: Branches, t: nat, s: state)
    ensures var p := Pred(bm, t, s);
            Next(p, s % 2) == s && Best(bm, t + 1, s) == Best(bm, t, p) + bm(t, 2 * p + s % 2)
  {
    var p := Pred(bm, t, s);
    NextPred(p, s % 2);
  }

  /** The surviving path ends in the state it was traced back from and attains the best score. */
  lemma {:induction false} SurvivorAttains(bm: Branches, t: nat, s: state)
    ensures StateAt(SurvivorStart(bm, t, s), Survivor(bm, t, s), t) == s
    ensures Score(bm, SurvivorStart(bm, t, s), Survivor(bm, t, s), t) == Best(bm, t, s)
    decreases t
  {
    hide Best, Decision, Next;
    if t > 0 {
      var p := Pred(bm, t - 1, s);
      SurvivorAttains(bm, t - 1, p);
      BestOfPred(bm, t - 1, s);
      var s0, x, z := SurvivorStart(bm, t, s), Survivor(bm, t, s), Survivor(bm, t - 1, p);
      PrefixState(s0, x, z, t - 1);
      PrefixScore(bm, s0, x, z, t - 1);
      assert x[t - 1] == s % 2;
    } else {
      BestStart(bm, s);
    }
  }

  /** Along the surviving path every state is followed back to its predecessor. */
  lemma {:induction false} SurvivorSteps(bm: Branches, t: nat, s: state, i: nat)
    requires i < t
    ensures var s0, x := SurvivorStart(bm, t, s), Survivor(bm, t, s);
            StateAt(s0, x, i) == Pred(bm, i, StateAt(s0, x, i + 1))
    decreases t
  {
    var p := Pred(bm, t - 1, s);
    var s0, x := SurvivorStart(bm, t, s), Survivor(bm, t, s);
    var z := Survivor(bm, t - 1, p);
    PrefixState(s0, x, z, i);
    if i == t - 1 {
      SurvivorAttains(bm, t, s);
      SurvivorAttains(bm, t - 1, p);
    } else {
      PrefixState(s0, x, z, i + 1);
      SurvivorSteps(bm, t - 1, p, i);
    }
  }

  function SixBits(a: bit, b: bit, c: bit, d: bit, e: bit, f: bit): state {
    32 * a + 16 * b + 8 * c + 4 * d + 2 * e + f
  }

  lemma {:induction false} DigitsOf(s: state) returns (h: seq<bit>)
    ensures |h| == 6 && s == SixBits(h[0], h[1], h[2], h[3], h[4], h[5])
  {
    var rest, a, b, c, d, e: int := s, 0, 0, 0, 0, 0;
    if rest >= 32 { rest, a := rest - 32, 1; }
    if rest >= 16 { rest, b := rest - 16, 1; }
    if rest >= 8 { rest, c := rest - 8, 1; }
    if rest >= 4 { rest, d := rest - 4, 1; }
    if rest >= 2 { rest, e := rest - 2, 1; }
    h := [a, b, c, d, e, rest];
  }

  lemma {:induction false} StateIsHistory(s: state, x: seq<bit>, h: seq<bit>, t: nat)
    requires |h| == 6 + |x| && h[6..] == x && s == SixBits(h[0], h[1], h[2], h[3], h[4], h[5])
    requires t <= |x|
    ensures StateAt(s, x, t) == SixBits(h[t], h[t + 1], h[t + 2], h[t + 3], h[t + 4], h[t + 5])
    decreases t
  {
    if t > 0 {
      StateIsHistory(s, x, h, t - 1);
      assert x[t - 1] == h[t + 5];
      NextShifts(h[t - 1], h[t], h[t + 1], h[t + 2], h[t + 3], h[t + 4], h[t + 5]);
    }
  }

  lemma {:induction false} NextShifts(a: bit, b: bit, c: bit, d: bit, e: bit, f: bit, g: bit)
    ensures Next(SixBits(a, b, c, d, e, f), g) == SixBits(b, c, d, e, f, g)
  {
    assert a == 0 <==> SixBits(a, b, c, d, e, f) < 32;
  }

  /** A state is the last six bits that led to it, newest lowest. */
  lemma {:induction false} StateIsLastSix(s: state, x: seq<bit>, t: nat)
    requires 6 <= t <= |x|
    ensures StateAt(s, x, t) == SixBits(x[t - 6], x[t - 5], x[t - 4], x[t - 3], x[t - 2], x[t - 1])
  {
    var d := DigitsOf(s);
    var h := d + x;
    StateIsHistory(s, x, h, t);
    assert forall i :: 6 <= i < |h| ==> h[i] == x[i - 6];
  }

  /** The data bits followed by the six zeros that flush the encoder. */
  function Flushed(u: seq<bit>): (x: seq<bit>)
    ensures |x| == |u| + 6
  {
    u + [0, 0, 0, 0, 0, 0]
  }

  /** The data bits that the traceback from state 0 after |u| + 6 steps delivers. */
  function Decoded(bm: Branches, n: nat): (u: seq<bit>)
    ensures |u| == n
  {
    Survivor(bm, n + 6, 0)[..n]
  }

  lemma {:induction false} TailEndsInZero(s: state, u: seq<bit>)
    ensures StateAt(s, Flushed(u), |u| + 6) == 0
  {
    var x, n := Flushed(u), |u|;
    StateIsLastSix(s, x, n + 6);
    SixBitsZero(x[n], x[n + 1], x[n + 2], x[n + 3], x[n + 4], x[n + 5]);
  }

  lemma {:induction false} SixBitsZero(a: bit, b: bit, c: bit, d: bit, e: bit, f: bit)
    ensures SixBits(a, b, c, d, e, f) == 0 <==> a == 0 && b == 0 && c == 0 && d == 0 && e == 0 && f == 0
  {
  }

  lemma {:induction false} ZeroEndsFlushed(s: state, x: seq<bit>, n: nat)
    requires |x| == n + 6 && StateAt(s, x, n + 6) == 0
    ensures x == Flushed(x[..n])
  {
    StateIsLastSix(s, x, n + 6);
    var a, b, c, d, e, f := x[n], x[n + 1], x[n + 2], x[n + 3], x[n + 4], x[n + 5];
    SixBitsZero(a, b, c, d, e, f);
    SixZeros(x, n);
  }

  lemma {:induction false} SixZeros(x: seq<bit>, n: nat)
    requires |x| == n + 6
    requires x[n] == x[n + 1] == x[n + 2] == x[n + 3] == x[n + 4] == x[n + 5] == 0
    ensures x == Flushed(x[..n])
  {
  }

  /** The decoded bits and six zeros are the surviving path. */
  lemma {:induction false} SurvivorIsDecoded(bm: Branches, n: nat)
    ensures Survivor(bm, n + 6, 0) == Flushed(Decoded(bm, n))
  {
    SurvivorAttains(bm, n + 6, 0);
    ZeroEndsFlushed(SurvivorStart(bm, n + 6, 0), Survivor(bm, n + 6, 0), n);
  }

  /** Maximum likelihood: among all paths that end in state 0, whatever state they start in,
      the decoded bits followed by six zeros attain the maximal score. */
  lemma {:induction false} DecodedIsOptimal(bm: Branches, n: nat, s: state, u: seq<bit>)
    requires |u| == n
    ensures var s0 := SurvivorStart(bm, n + 6, 0);
            Score(bm, s, Flushed(u), n + 6) <= Score(bm, s0, Flushed(Decoded(bm, n)), n + 6)
                                            == Best(bm, n + 6, 0)
  {
    TailEndsInZero(s, u);
    BestIsUpperBound(bm, s, Flushed(u), n + 6);
    SurvivorAttains(bm, n + 6, 0);
    SurvivorIsDecoded(bm, n);
  }

  /** Six steps after bit i of the surviving path, the decision tells that bit. */
  lemma {:induction false} DecisionTellsBit(bm: Branches, n: nat, i: nat)
    requires i < n
    ensures var s0, x := SurvivorStart(bm, n + 6, 0), Survivor(bm, n + 6, 0);
            var e := StateAt(s0, x, i + 7);
            Decision(bm, i + 6, e) == Decoded(bm, n)[i] && StateAt(s0, x, i + 6) == Pred(bm, i + 6, e)
  {
    var s0, x := SurvivorStart(bm, n + 6, 0), Survivor(bm, n + 6, 0);
    SurvivorSteps(bm, n + 6, 0, i + 6);
    StateIsLastSix(s0, x, i + 6);
    assert x[i] == Decoded(bm, n)[i];
    assert StateAt(s0, x, i + 6) >= 32 <==> x[i] == 1;
  }

  ghost predicate AgreeBelow(bm: Branches, bm': Branches, t: nat) {
    forall i: nat, r: nat :: i < t ==> bm(i, r) == bm'(i, r)
  }

  lemma {:induction false} BestLocal(bm: Branches, bm': Branches, t: nat, s: state)
    requires AgreeBelow(bm, bm', t)
    ensures Best(bm, t, s) == Best(bm', t, s)
    decreases t, 0
  {
    if t > 0 {
      StepLocal(bm, bm', t, s);
    }
  }

  lemma {:induction false} StepLocal(bm: Branches, bm': Branches, t: nat, s: state)
    requires t > 0 && AgreeBelow(bm, bm', t)
    ensures LowerCand(bm, t - 1, s) == LowerCand(bm', t - 1, s) && UpperCand(bm, t - 1, s) == UpperCand(bm', t - 1, s)
    ensures Decision(bm, t - 1, s) == Decision(bm', t - 1, s)
    decreases t - 1, 1
  {
    BestLocal(bm, bm', t - 1, s / 2);
    BestLocal(bm, bm', t - 1, s / 2 + 32);
    assert bm(t - 1, s) == bm'(t - 1, s) && bm(t - 1, s + 64) == bm'(t - 1, s + 64);
    assert LowerCand(bm, t - 1, s) == LowerCand(bm', t - 1, s) && UpperCand(bm, t - 1, s) == UpperCand(bm', t - 1, s);
  }

  lemma {:induction false} SurvivorLocal(bm: Branches, bm': Branches, t: nat, s: state)
    requires AgreeBelow(bm, bm', t)
    ensures Survivor(bm, t, s) == Survivor(bm', t, s)
    decreases t
  {
    hide Decision;
    if t > 0 {
      StepLocal(bm, bm', t, s);
      SurvivorLocal(bm, bm', t - 1, Pred(bm, t - 1, s));
    }
  }

  /** Nothing after the last step decides. */
  lemma {:induction false} DecodedLocal(bm: Branches, bm': Branches, n: nat)
    requires AgreeBelow(bm, bm', n + 6)
    ensures Decoded(bm, n) == Decoded(bm', n)
  {
    SurvivorLocal(bm, bm', n + 6, 0);
  }
}
