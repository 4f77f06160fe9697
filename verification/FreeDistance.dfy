/** The distance between code words of the mother code, by a potential on the states of the encoder. */
module FreeDistance {
  import opened Bits
  import opened ConvCode
  import opened Trellis

  // The code symbols of a register, digit by digit, oldest digit first.

  predicate Odd(x: bool, y: bool) {
    x != y
  }

  /** Symbol j of the register with these digits; symbols 0 and 3 are the same. */
  predicate Tapped(j: nat, a: bool, b: bool, c: bool, d: bool, e: bool, f: bool, g: bool)
    requires j < N
  {
    if j == 1 then Odd(a, Odd(d, Odd(e, Odd(f, g))))
    else if j == 2 then Odd(a, Odd(c, Odd(f, g)))
    else Odd(a, Odd(b, Odd(d, Odd(e, g))))
  }

  predicate IsOne(b: bit) {
    b == 1
  }

  lemma {:induction false} TapStep(b: bit, h: nat, p: nat)
    requires p > 0
    ensures IsOne(Par(And(b + 2 * h, p))) <==> Odd(p % 2 == 1 && IsOne(b), IsOne(Par(And(h, p / 2))))
  {
    ParStep(AndDigit(b + 2 * h, p), And(h, p / 2));
  }

  lemma {:induction false} TapsOfPoly(p: nat, a: bit, b: bit, c: bit, d: bit, e: bit, f: bit, g: bit)
    requires 64 <= p < 128
    ensures IsOne(Par(And(2 * SixBits(a, b, c, d, e, f) + g, p))) <==>
              Odd(p % 2 == 1 && IsOne(g), Odd(p / 2 % 2 == 1 && IsOne(f), Odd(p / 4 % 2 == 1 && IsOne(e),
                Odd(p / 8 % 2 == 1 && IsOne(d), Odd(p / 16 % 2 == 1 && IsOne(c),
                  Odd(p / 32 % 2 == 1 && IsOne(b), IsOne(a)))))))
  {
    hide Odd;
    hide And, Par;
    TapStep(g, SixBits(a, b, c, d, e, f), p);
    TapStep(f, 16 * a + 8 * b + 4 * c + 2 * d + e, p / 2);
    TapStep(e, 8 * a + 4 * b + 2 * c + d, p / 4);
    TapStep(d, 4 * a + 2 * b + c, p / 8);
    TapStep(c, 2 * a + b, p / 16);
    TapStep(b, a, p / 32);
    LastTap(a);
  }

  lemma {:induction false} LastTap(a: bit)
    ensures IsOne(Par(And(a, 1))) <==> IsOne(a)
  {
  }

  lemma {:induction false} OutTapped(j: nat, a: bit, b: bit, c: bit, d: bit, e: bit, f: bit, g: bit)
    requires j < N
    ensures IsOne(Out(2 * SixBits(a, b, c, d, e, f) + g, j)) <==>
              Tapped(j, IsOne(a), IsOne(b), IsOne(c), IsOne(d), IsOne(e), IsOne(f), IsOne(g))
  {
    hide And, Par, SixBits;
    TapsOfPoly(Poly47(j), a, b, c, d, e, f, g);
  }

  // The potential.

  /** How many of the first k symbols of a register are one. */
  function Weight(k: nat, a: bool, b: bool, c: bool, d: bool, e: bool, f: bool, g: bool): nat
    requires 1 <= k <= N
  {
    Flag(Tapped(0, a, b, c, d, e, f, g)) + (if k > 1 then Flag(Tapped(1, a, b, c, d, e, f, g)) else 0)
    + (if k > 2 then Flag(Tapped(2, a, b, c, d, e, f, g)) else 0)
    + (if k > 3 then Flag(Tapped(3, a, b, c, d, e, f, g)) else 0)
  }

  /** The free distance of the code that sends the first k symbols of every group. */
  function Free(k: nat): nat
    requires 1 <= k <= N
  {
    if k == 1 then 2 else if k == 2 then 10 else if k == 3 then 14 else 19
  }

  function Leaf(d: bool, e: bool, f: bool,
                v0: nat, v1: nat, v2: nat, v3: nat, v4: nat, v5: nat, v6: nat, v7: nat): nat {
    if d then (if e then (if f then v7 else v6) else (if f then v5 else v4))
    else (if e then (if f then v3 else v2) else (if f then v1 else v0))
  }

  /** A lower bound for the weight of a path that has left state 0 and is now in the state with these
      digits. */
  function Potential(k: nat, a: bool, b: bool, c: bool, d: bool, e: bool, f: bool): nat
    requires 1 <= k <= N
  {
    if k == 1 then (if a || b || c || d || e || f then 1 else 2)
    else if k == 2 then Potential2(a, b, c, d, e, f)
    else if k == 3 then Potential3(a, b, c, d, e, f)
    else Potential4(a, b, c, d, e, f)
  }

  function Potential2(a: bool, b: bool, c: bool, d: bool, e: bool, f: bool): nat {
    if !a && !b && !c then Leaf(d, e, f, 10, 2, 3, 3, 5, 3, 4, 4)
    else if !a && !b && c then Leaf(d, e, f, 7, 5, 4, 4, 4, 6, 5, 5)
    else if !a && b && !c then Leaf(d, e, f, 7, 5, 6, 6, 4, 4, 5, 5)
    else if !a && b && c then Leaf(d, e, f, 6, 4, 7, 7, 5, 7, 6, 6)
    else if a && !b && !c then Leaf(d, e, f, 8, 8, 7, 5, 7, 7, 6, 4)
    else if a && !b && c then Leaf(d, e, f, 5, 5, 4, 6, 6, 6, 7, 5)
    else if a && b && !c then Leaf(d, e, f, 7, 7, 6, 4, 8, 8, 7, 7)
    else Leaf(d, e, f, 6, 6, 7, 7, 7, 7, 6, 6)
  }

  function Potential3(a: bool, b: bool, c: bool, d: bool, e: bool, f: bool): nat {
    if !a && !b && !c then Leaf(d, e, f, 14, 3, 5, 4, 7, 6, 6, 5)
    else if !a && !b && c then Leaf(d, e, f, 9, 8, 8, 7, 6, 9, 7, 6)
    else if !a && b && !c then Leaf(d, e, f, 10, 11, 9, 10, 9, 8, 8, 9)
    else if !a && b && c then Leaf(d, e, f, 9, 6, 10, 11, 8, 9, 7, 8)
    else if a && !b && !c then Leaf(d, e, f, 11, 12, 10, 11, 10, 9, 9, 8)
    else if a && !b && c then Leaf(d, e, f, 10, 11, 9, 10, 9, 10, 8, 9)
    else if a && b && !c then Leaf(d, e, f, 11, 10, 8, 7, 10, 11, 11, 8)
    else Leaf(d, e, f, 10, 9, 9, 8, 9, 8, 10, 9)
  }

  function Potential4(a: bool, b: bool, c: bool, d: bool, e: bool, f: bool): nat {
    if !a && !b && !c then Leaf(d, e, f, 19, 4, 6, 6, 9, 7, 9, 7)
    else if !a && !b && c then Leaf(d, e, f, 12, 10, 10, 8, 9, 13, 9, 9)
    else if !a && b && !c then Leaf(d, e, f, 13, 13, 11, 13, 11, 10, 10, 10)
    else if !a && b && c then Leaf(d, e, f, 12, 9, 14, 14, 10, 12, 10, 11)
    else if a && !b && !c then Leaf(d, e, f, 15, 15, 13, 13, 12, 13, 13, 11)
    else if a && !b && c then Leaf(d, e, f, 12, 14, 11, 13, 12, 12, 11, 10)
    else if a && b && !c then Leaf(d, e, f, 13, 13, 12, 10, 14, 14, 14, 11)
    else Leaf(d, e, f, 12, 12, 12, 11, 13, 11, 13, 12)
  }

  lemma Potential1Step(a: bool, b: bool, c: bool, d: bool, e: bool, f: bool, g: bool)
    requires a || b || c || d || e || f
    ensures Potential(1, b, c, d, e, f, g) <= Potential(1, a, b, c, d, e, f) + Weight(1, a, b, c, d, e, f, g)
  {
    if !(b || c || d || e || f || g) {
      assert Tapped(0, a, b, c, d, e, f, g);
    }
  }

  lemma Potential2Step(a: bool, b: bool, c: bool, d: bool, e: bool, f: bool, g: bool)
    requires a || b || c || d || e || f
    ensures Potential2(b, c, d, e, f, g) <= Potential2(a, b, c, d, e, f) + Weight(2, a, b, c, d, e, f, g)
  {
  }

  lemma Potential3Step(a: bool, b: bool, c: bool, d: bool, e: bool, f: bool, g: bool)
    requires a || b || c || d || e || f
    ensures Potential3(b, c, d, e, f, g) <= Potential3(a, b, c, d, e, f) + Weight(3, a, b, c, d, e, f, g)
  {
  }

  lemma Potential4Step(a: bool, b: bool, c: bool, d: bool, e: bool, f: bool, g: bool)
    requires a || b || c || d || e || f
    ensures Potential4(b, c, d, e, f, g) <= Potential4(a, b, c, d, e, f) + Weight(4, a, b, c, d, e, f, g)
  {
  }

  /** No step lets the weight grow more slowly than the potential. */
  lemma {:induction false} PotentialStep(k: nat, a: bool, b: bool, c: bool, d: bool, e: bool, f: bool, g: bool)
    requires 1 <= k <= N && (a || b || c || d || e || f)
    ensures Potential(k, b, c, d, e, f, g) <= Potential(k, a, b, c, d, e, f) + Weight(k, a, b, c, d, e, f, g)
  {
    hide Potential2, Potential3, Potential4, Weight;
    if k == 2 {
      Potential2Step(a, b, c, d, e, f, g);
    } else if k == 3 {
      Potential3Step(a, b, c, d, e, f, g);
    } else if k == 4 {
      Potential4Step(a, b, c, d, e, f, g);
    } else {
      Potential1Step(a, b, c, d, e, f, g);
    }
  }

  // Two paths through the encoder, seen by their differences.

  /** The digits that lead to the states of a path: six zeros, and its bits. */
  function History(x: seq<bit>): (h: seq<bit>)
    ensures |h| == |x| + 6
  {
    [0, 0, 0, 0, 0, 0] + x
  }

  predicate Differ(x: seq<bit>, z: seq<bit>, i: nat)
    requires |x| == |z| && i < |x| + 6
  {
    Odd(IsOne(History(x)[i]), IsOne(History(z)[i]))
  }

  /** The states after t bits differ. */
  predicate StatesDiffer(x: seq<bit>, z: seq<bit>, t: nat)
    requires |x| == |z| && t <= |x|
  {
    Differ(x, z, t) || Differ(x, z, t + 1) || Differ(x, z, t + 2)
    || Differ(x, z, t + 3) || Differ(x, z, t + 4) || Differ(x, z, t + 5)
  }

  function PotentialAt(k: nat, x: seq<bit>, z: seq<bit>, t: nat): nat
    requires 1 <= k <= N && |x| == |z| && t <= |x|
  {
    hide Potential, Differ;
    Potential(k, Differ(x, z, t), Differ(x, z, t + 1), Differ(x, z, t + 2),
              Differ(x, z, t + 3), Differ(x, z, t + 4), Differ(x, z, t + 5))
  }

  /** How many of the first k symbols of step t differ. */
  function WeightAt(k: nat, x: seq<bit>, z: seq<bit>, t: nat): nat
    requires 1 <= k <= N && |x| == |z| && t < |x|
  {
    hide Weight, Differ;
    Weight(k, Differ(x, z, t), Differ(x, z, t + 1), Differ(x, z, t + 2), Differ(x, z, t + 3),
           Differ(x, z, t + 4), Differ(x, z, t + 5), Differ(x, z, t + 6))
  }

  lemma {:induction false} PotentialGrows(k: nat, x: seq<bit>, z: seq<bit>, t: nat)
    requires 1 <= k <= N && |x| == |z| && t < |x| && StatesDiffer(x, z, t)
    ensures PotentialAt(k, x, z, t + 1) <= PotentialAt(k, x, z, t) + WeightAt(k, x, z, t)
  {
    hide Potential, Differ, Weight;
    PotentialStep(k, Differ(x, z, t), Differ(x, z, t + 1), Differ(x, z, t + 2), Differ(x, z, t + 3),
                  Differ(x, z, t + 4), Differ(x, z, t + 5), Differ(x, z, t + 6));
  }

  lemma {:induction false} HistoryShape(x: seq<bit>)
    ensures var h := History(x);
            h[6..] == x && SixBits(h[0], h[1], h[2], h[3], h[4], h[5]) == 0
  {
  }

  lemma {:induction false} RegDigits(x: seq<bit>, t: nat)
    requires t < |x|
    ensures var h := History(x);
            RegAt(0, x, t) == 2 * SixBits(h[t], h[t + 1], h[t + 2], h[t + 3], h[t + 4], h[t + 5]) + h[t + 6]
  {
    hide History, SixBits;
    HistoryShape(x);
    var h := History(x);
    assert x[t] == h[6..][t];
    StateIsHistory(0, x, h, t);
  }

  lemma OddSwap(a: bool, b: bool, a': bool, b': bool)
    ensures Odd(Odd(a, b), Odd(a', b')) <==> Odd(Odd(a, a'), Odd(b, b'))
  {
  }

  lemma OddOfFive(a: bool, b: bool, c: bool, d: bool, e: bool,
                                     a': bool, b': bool, c': bool, d': bool, e': bool)
    ensures Odd(Odd(a, Odd(b, Odd(c, Odd(d, e)))), Odd(a', Odd(b', Odd(c', Odd(d', e'))))) <==>
              Odd(Odd(a, a'), Odd(Odd(b, b'), Odd(Odd(c, c'), Odd(Odd(d, d'), Odd(e, e')))))
  {
    hide Odd;
    OddSwap(d, e, d', e');
    OddSwap(c, Odd(d, e), c', Odd(d', e'));
    OddSwap(b, Odd(c, Odd(d, e)), b', Odd(c', Odd(d', e')));
    OddSwap(a, Odd(b, Odd(c, Odd(d, e))), a', Odd(b', Odd(c', Odd(d', e'))));
  }

  lemma OddOfFour(a: bool, b: bool, c: bool, d: bool, a': bool, b': bool, c': bool, d': bool)
    ensures Odd(Odd(a, Odd(b, Odd(c, d))), Odd(a', Odd(b', Odd(c', d')))) <==>
              Odd(Odd(a, a'), Odd(Odd(b, b'), Odd(Odd(c, c'), Odd(d, d'))))
  {
    hide Odd;
    OddSwap(c, d, c', d');
    OddSwap(b, Odd(c, d), b', Odd(c', d'));
    OddSwap(a, Odd(b, Odd(c, d)), a', Odd(b', Odd(c', d')));
  }

  lemma {:induction false} TappedLinear(j: nat, a: bool, b: bool, c: bool, d: bool, e: bool, f: bool, g: bool,
                                        a': bool, b': bool, c': bool, d': bool, e': bool, f': bool, g': bool)
    requires j < N
    ensures Odd(Tapped(j, a, b, c, d, e, f, g), Tapped(j, a', b', c', d', e', f', g')) <==>
              Tapped(j, Odd(a, a'), Odd(b, b'), Odd(c, c'), Odd(d, d'), Odd(e, e'), Odd(f, f'), Odd(g, g'))
  {
    hide Odd;
    if j == 1 {
      OddOfFive(a, d, e, f, g, a', d', e', f', g');
    } else if j == 2 {
      OddOfFour(a, c, f, g, a', c', f', g');
    } else {
      OddOfFive(a, b, d, e, g, a', b', d', e', g');
    }
  }

  lemma {:induction false} BitsDiffer(a: bit, b: bit)
    ensures Odd(IsOne(a), IsOne(b)) <==> a != b
  {
  }

  /** The code is linear: whether two symbols differ depends on the differences alone. */
  lemma {:induction false} SymbolsDiffer(j: nat, x: seq<bit>, z: seq<bit>, t: nat)
    requires j < N && |x| == |z| && t < |x|
    ensures Out(RegAt(0, x, t), j) != Out(RegAt(0, z, t), j) <==>
              Tapped(j, Differ(x, z, t), Differ(x, z, t + 1), Differ(x, z, t + 2), Differ(x, z, t + 3),
                     Differ(x, z, t + 4), Differ(x, z, t + 5), Differ(x, z, t + 6))
  {
    hide Tapped, Odd, IsOne, Out, SixBits, RegAt, History;
    var h, h' := History(x), History(z);
    RegDigits(x, t);
    RegDigits(z, t);
    OutTapped(j, h[t], h[t + 1], h[t + 2], h[t + 3], h[t + 4], h[t + 5], h[t + 6]);
    OutTapped(j, h'[t], h'[t + 1], h'[t + 2], h'[t + 3], h'[t + 4], h'[t + 5], h'[t + 6]);
    TappedLinear(j, IsOne(h[t]), IsOne(h[t + 1]), IsOne(h[t + 2]), IsOne(h[t + 3]),
                 IsOne(h[t + 4]), IsOne(h[t + 5]), IsOne(h[t + 6]),
                 IsOne(h'[t]), IsOne(h'[t + 1]), IsOne(h'[t + 2]), IsOne(h'[t + 3]),
                 IsOne(h'[t + 4]), IsOne(h'[t + 5]), IsOne(h'[t + 6]));
    BitsDiffer(Out(RegAt(0, x, t), j), Out(RegAt(0, z, t), j));
  }

  // The ends of an error event.

  lemma {:induction false} SameDigit(x: seq<bit>, z: seq<bit>, i: nat)
    requires |x| == |z| && i < |x| + 6
    ensures Differ(x, z, i) <==> i >= 6 && x[i - 6] != z[i - 6]
  {
    BitsDiffer(History(x)[i], History(z)[i]);
  }

  lemma {:induction false} FirstWeight(k: nat)
    requires 1 <= k <= N
    ensures Potential(k, false, false, false, false, false, true)
         <= Weight(k, false, false, false, false, false, false, true)
    ensures Potential(k, false, false, false, false, false, false) == Free(k)
  {
  }

  /** When two paths part, their states differ and the weight covers the potential. */
  lemma {:induction false} PotentialStarts(k: nat, x: seq<bit>, z: seq<bit>, a: nat)
    requires 1 <= k <= N && |x| == |z| && a < |x| && x[a] != z[a] && forall i :: 0 <= i < a ==> x[i] == z[i]
    ensures StatesDiffer(x, z, a + 1) && PotentialAt(k, x, z, a + 1) <= WeightAt(k, x, z, a)
  {
    hide Differ, Potential, Weight;
    SameDigit(x, z, a);
    SameDigit(x, z, a + 1);
    SameDigit(x, z, a + 2);
    SameDigit(x, z, a + 3);
    SameDigit(x, z, a + 4);
    SameDigit(x, z, a + 5);
    SameDigit(x, z, a + 6);
    FirstWeight(k);
  }

  /** When their states meet, the potential is the free distance. */
  lemma {:induction false} PotentialMeets(k: nat, x: seq<bit>, z: seq<bit>, t: nat)
    requires 1 <= k <= N && |x| == |z| && t <= |x|
    ensures StatesDiffer(x, z, t) || PotentialAt(k, x, z, t) == Free(k)
  {
    hide Differ, Potential, Weight;
    FirstWeight(k);
  }

  /** At the end both paths are in state 0. */
  lemma {:induction false} FlushedMeet(u: seq<bit>, v: seq<bit>)
    requires |u| == |v|
    ensures !StatesDiffer(Flushed(u), Flushed(v), |u| + 6)
  {
    hide Differ;
    var x, z, n := Flushed(u), Flushed(v), |u|;
    assert x[n..] == z[n..];
    forall i | n + 6 <= i < n + 12 ensures !Differ(x, z, i) {
      SameDigit(x, z, i);
      assert x[i - 6] == x[n..][i - 6 - n] && z[i - 6] == z[n..][i - 6 - n];
    }
  }

  /** In how many of the first k symbols of every group two paths differ over n steps. */
  function PathWeight(k: nat, x: seq<bit>, z: seq<bit>, n: nat): nat
    requires 1 <= k <= N && |x| == |z| && n <= |x|
  {
    hide WeightAt;
    if n == 0 then 0 else PathWeight(k, x, z, n - 1) + WeightAt(k, x, z, n - 1)
  }

  lemma {:induction false} FirstDifference(u: seq<bit>, v: seq<bit>, n: nat) returns (a: nat)
    requires n < |u| == |v| && u[n] != v[n]
    ensures a <= n && u[a] != v[a] && forall i :: 0 <= i < a ==> u[i] == v[i]
  {
    a := 0;
    while u[a] == v[a]
      invariant a <= n && forall i :: 0 <= i < a ==> u[i] == v[i]
      decreases n - a
    {
      a := a + 1;
    }
  }

  /** From the step where two paths part until their states meet again, the weight keeps up with the
      potential; once they have met, it has reached the free distance. */
  lemma {:induction false} EventWeight(k: nat, x: seq<bit>, z: seq<bit>, a: nat, t: nat)
    requires 1 <= k <= N && |x| == |z| && a < t <= |x| && x[a] != z[a] && forall i :: 0 <= i < a ==> x[i] == z[i]
    ensures PathWeight(k, x, z, t) >= Free(k)
         || (StatesDiffer(x, z, t) && PathWeight(k, x, z, t) >= PotentialAt(k, x, z, t))
    decreases t
  {
    hide Differ, Potential, Weight, StatesDiffer, Free;
    if t == a + 1 {
      PotentialStarts(k, x, z, a);
    } else {
      EventWeight(k, x, z, a, t - 1);
      if StatesDiffer(x, z, t - 1) {
        PotentialGrows(k, x, z, t - 1);
        PotentialMeets(k, x, z, t);
      }
    }
  }

  /** Different messages, of any length, are at least the free distance apart. */
  lemma {:induction false} MessagesApart(k: nat, u: seq<bit>, v: seq<bit>)
    requires 1 <= k <= N && |u| == |v| && u != v
    ensures PathWeight(k, Flushed(u), Flushed(v), |u| + 6) >= Free(k)
  {
    hide StatesDiffer, PathWeight, PotentialAt, Free;
    var n: nat :| n < |u| && u[n] != v[n];
    var x, z := Flushed(u), Flushed(v);
    var a := FirstDifference(u, v, n);
    EventWeight(k, x, z, a, |u| + 6);
    FlushedMeet(u, v);
  }

  /** And no less: two messages that differ in one bit are exactly so far apart. */
  lemma {:induction false} ApartAttained(k: nat)
    requires 2 <= k <= N
    ensures PathWeight(k, Flushed([1]), Flushed([0]), 7) == Free(k)
  {
    hide Differ, Weight;
    var x, z := Flushed([1]), Flushed([0]);
    assert x == [1, 0, 0, 0, 0, 0, 0] && z == [0, 0, 0, 0, 0, 0, 0];
    forall i | 0 <= i < 13 ensures Differ(x, z, i) <==> i == 6 {
      SameDigit(x, z, i);
    }
    SingleBitWeights(k);
    assert PathWeight(k, x, z, 2) == WeightAt(k, x, z, 0) + WeightAt(k, x, z, 1);
    assert PathWeight(k, x, z, 4) == PathWeight(k, x, z, 2) + WeightAt(k, x, z, 2) + WeightAt(k, x, z, 3);
    assert PathWeight(k, x, z, 6) == PathWeight(k, x, z, 4) + WeightAt(k, x, z, 4) + WeightAt(k, x, z, 5);
  }

  lemma {:induction false} SingleBitWeights(k: nat)
    requires 2 <= k <= N
    ensures Weight(k, false, false, false, false, false, false, true)
            + Weight(k, false, false, false, false, false, true, false)
            + Weight(k, false, false, false, false, true, false, false)
            + Weight(k, false, false, false, true, false, false, false)
            + Weight(k, false, false, true, false, false, false, false)
            + Weight(k, false, true, false, false, false, false, false)
            + Weight(k, true, false, false, false, false, false, false) == Free(k)
  {
  }
}
