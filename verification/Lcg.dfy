/** The congruential generator x -> 13 * x + 511 modulo a power of two has full period. */
module Lcg {
  import opened Bits

  /** The sequence before reduction. */
  function Raw(n: nat): nat {
    if n == 0 then 0 else 13 * Raw(n - 1) + 511
  }

  /** The sequence modulo 2^k, as the recurrence computes it. */
  function Orbit(k: nat, n: nat): nat {
    if n == 0 then 0 else Low(13 * Orbit(k, n - 1) + 511, k)
  }

  lemma {:induction false} OrbitStep(k: nat, n: nat)
    ensures Orbit(k, n + 1) == (13 * Orbit(k, n) + 511) % Pow2(k)
  {
    hide Low, Drop, Pow2;
    var w, p := 13 * Orbit(k, n) + 511, Pow2(k);
    assert w == w % p + p * (w / p);
    LowDropCat(w / p, w % p, k);
  }

  function Pow13(n: nat): (p: nat)
    ensures p % 4 == 1
  {
    if n == 0 then 1 else
      Times13(Pow13(n - 1));
      13 * Pow13(n - 1)
  }

  lemma {:induction false} Times13(q: nat)
    requires q % 4 == 1
    ensures 13 * q % 4 == 1
  {
    assert 13 * q == 4 * (13 * (q / 4) + 3) + 1;
  }

  /** 1 + 13 + ... + 13^(n-1) */
  function Geometric(n: nat): nat {
    if n == 0 then 0 else 13 * Geometric(n - 1) + 1
  }

  /** 2^k divides v. */
  predicate Divides(k: nat, v: nat)
    decreases k, v
  {
    k == 0 || (v % 2 == 0 && Divides(k - 1, v / 2))
  }

  lemma {:induction false} EvenProduct(u: nat, h: nat)
    ensures u * (2 * h) == 2 * (u * h)
  {
  }

  lemma {:induction false} OddProduct(t: nat, h: nat)
    ensures (2 * t + 1) * (2 * h + 1) == 2 * (t * (2 * h + 1) + h) + 1
  {
    var v := 2 * h + 1;
    assert (2 * t + 1) * v == 2 * (t * v) + v;
  }

  lemma {:induction false} Halved(v: nat, d: bit, h: nat)
    requires v == 2 * h + d
    ensures v % 2 == d && v / 2 == h
  {
  }

  lemma {:induction false} DividesOddMultiple(k: nat, u: nat, v: nat)
    requires u % 2 == 1
    ensures Divides(k, u * v) <==> Divides(k, v)
    decreases k
  {
    if k > 0 {
      var t, h := u / 2, v / 2;
      if v % 2 == 0 {
        EvenProduct(u, h);
        Halved(u * v, 0, u * h);
        DividesOddMultiple(k - 1, u, h);
      } else {
        OddProduct(t, h);
        Halved(u * v, 1, t * v + h);
      }
    }
  }

  lemma {:induction false} GeometricStep(p: nat, g: nat, a: nat)
    ensures 13 * (p * g + a) + 1 == 13 * p * g + (13 * a + 1)
  {
    assert 13 * (p * g) == 13 * p * g;
  }

  lemma {:induction false} GeometricSplit(m: nat, n: nat)
    ensures Geometric(m + n) == Pow13(m) * Geometric(n) + Geometric(m)
    decreases m
  {
    if m > 0 {
      GeometricSplit(m - 1, n);
      var p, g, a := Pow13(m - 1), Geometric(n), Geometric(m - 1);
      assert Geometric(m - 1 + n) == p * g + a;
      assert Geometric(m + n) == 13 * Geometric(m - 1 + n) + 1;
      GeometricStep(p, g, a);
      assert Pow13(m) == 13 * p && Geometric(m) == 13 * a + 1;
    } else {
      assert Pow13(m) == 1 && Geometric(m) == 0;
    }
  }

  /** Doubling the length multiplies the sum by twice an odd number. */
  lemma {:induction false} GeometricDouble(m: nat) returns (u: nat)
    ensures u % 2 == 1 && Geometric(2 * m) == 2 * (u * Geometric(m))
  {
    GeometricSplit(m, m);
    hide Geometric, Pow13;
    u := HalfOdd(Pow13(m));
    Double(Pow13(m), u, Geometric(m));
  }

  lemma {:induction false} HalfOdd(p: nat) returns (u: nat)
    requires p % 4 == 1
    ensures u % 2 == 1 && p + 1 == 2 * u
  {
    u := 2 * (p / 4) + 1;
  }

  lemma {:induction false} Double(p: nat, u: nat, g: nat)
    requires p + 1 == 2 * u
    ensures p * g + g == 2 * (u * g)
  {
    assert (p + 1) * g == (2 * u) * g;
  }

  lemma {:induction false} GeometricParity(n: nat)
    ensures Geometric(n) % 2 == n % 2
    decreases n
  {
    if n > 0 {
      GeometricParity(n - 1);
      var g := Geometric(n - 1);
      assert 13 * g + 1 == 2 * (6 * g) + g + 1;
    }
  }

  lemma {:induction false} GeometricDivides(k: nat, n: nat)
    ensures Divides(k, Geometric(n)) <==> Divides(k, n)
    decreases k
  {
    if k > 0 {
      GeometricParity(n);
      if n % 2 == 0 {
        var m := n / 2;
        var u := GeometricDouble(m);
        DividesOddMultiple(k - 1, u, Geometric(m));
        GeometricDivides(k - 1, m);
      }
    }
  }

  lemma {:induction false} RawIsGeometric(n: nat)
    ensures Raw(n) == 511 * Geometric(n)
    decreases n
  {
    if n > 0 {
      RawIsGeometric(n - 1);
    }
  }

  /** The distance between two members of the sequence is as even as the distance of their indices. */
  lemma {:induction false} RawDistance(k: nat, m: nat, d: nat)
    ensures Raw(m + d) >= Raw(m) && (Divides(k, Raw(m + d) - Raw(m)) <==> Divides(k, d))
  {
    RawIsGeometric(m + d);
    RawIsGeometric(m);
    GeometricSplit(m, d);
    var p, g := Pow13(m), Geometric(d);
    var v := p * g;
    assert Raw(m + d) == 511 * v + Raw(m);
    DividesOddMultiple(k, 511, v);
    OddMultiple13(k, m, g);
    GeometricDivides(k, d);
  }

  lemma {:induction false} OddMultiple13(k: nat, m: nat, g: nat)
    ensures Divides(k, Pow13(m) * g) <==> Divides(k, g)
  {
    hide Divides, Pow13;
    OneModFour(Pow13(m));
    DividesOddMultiple(k, Pow13(m), g);
  }

  lemma {:induction false} OneModFour(p: nat)
    requires p % 4 == 1
    ensures p % 2 == 1
  {
  }

  lemma {:induction false} DividesSmall(k: nat, d: nat)
    requires d < Pow2(k) && Divides(k, d)
    ensures d == 0
    decreases k
  {
    if k > 0 {
      DividesSmall(k - 1, d / 2);
    }
  }

  lemma {:induction false} LowEqualDivides(k: nat, a: nat, b: nat)
    requires b <= a && Low(a, k) == Low(b, k)
    ensures Divides(k, a - b)
    decreases k
  {
    if k > 0 {
      assert a % 2 == b % 2;
      LowEqualDivides(k - 1, a / 2, b / 2);
      assert (a - b) / 2 == a / 2 - b / 2;
    }
  }

  lemma {:induction false} LowOfLow(k: nat, c: nat, a: nat)
    ensures Low(13 * Low(a, k) + c, k) == Low(13 * a + c, k)
    decreases k
  {
    if k > 0 {
      var h, d := a / 2, a % 2;
      var c' := (13 * d + c) / 2;
      assert a == 2 * h + d && Low(a, k) == d + 2 * Low(h, k - 1);
      assert (13 * a + c) / 2 == 13 * h + c' && (13 * a + c) % 2 == (13 * d + c) % 2;
      assert (13 * Low(a, k) + c) / 2 == 13 * Low(h, k - 1) + c';
      assert (13 * Low(a, k) + c) % 2 == (13 * d + c) % 2;
      LowOfLow(k - 1, c', h);
    }
  }

  lemma {:induction false} OrbitIsRaw(k: nat, n: nat)
    ensures Orbit(k, n) == Low(Raw(n), k)
    decreases n
  {
    if n > 0 {
      OrbitIsRaw(k, n - 1);
      LowOfLow(k, 511, Raw(n - 1));
    } else {
      LowZero(k);
    }
  }

  /** For every k, the first 2^k members of the sequence are distinct modulo 2^k. */
  lemma {:induction false} OrbitInjective(k: nat, m: nat, n: nat)
    requires m < n < Pow2(k)
    ensures Orbit(k, m) != Orbit(k, n)
  {
    OrbitIsRaw(k, m);
    OrbitIsRaw(k, n);
    if Orbit(k, m) == Orbit(k, n) {
      RawDistance(k, m, n - m);
      LowEqualDivides(k, Raw(n), Raw(m));
      DividesSmall(k, n - m);
    }
  }

  /** ... so that each residue occurs exactly once among them ... */
  lemma {:induction false} OrbitSurjective(k: nat, v: nat)
    requires v < Pow2(k)
    ensures exists n :: 0 <= n < Pow2(k) && Orbit(k, n) == v
  {
    var image := OrbitSet(k, Pow2(k));
    OrbitSetSize(k, Pow2(k));
    var all := NatsBelow(Pow2(k));
    NatsBelowSize(Pow2(k));
    assert image <= all by {
      forall w | w in image ensures w in all {
        OrbitSetHolds(k, Pow2(k), w);
      }
    }
    if v !in image {
      SubsetSmaller(image, all, v);
    }
    OrbitSetHolds(k, Pow2(k), v);
  }

  /** ... and then the sequence starts over. */
  lemma {:induction false} OrbitPeriod(k: nat)
    ensures Orbit(k, Pow2(k)) == Orbit(k, 0)
  {
    OrbitIsRaw(k, Pow2(k));
    RawDistance(k, 0, Pow2(k));
    DividesPow2(k);
    DividesLow(k, Raw(Pow2(k)));
  }

  lemma {:induction false} DividesDouble(k: nat, v: nat)
    requires k > 0 && Divides(k - 1, v)
    ensures Divides(k, 2 * v)
  {
    assert (2 * v) % 2 == 0 && (2 * v) / 2 == v;
  }

  lemma {:induction false} DividesPow2(k: nat)
    ensures Divides(k, Pow2(k))
    decreases k
  {
    if k > 0 {
      DividesPow2(k - 1);
      DividesDouble(k, Pow2(k - 1));
    }
  }

  lemma {:induction false} DividesLow(k: nat, v: nat)
    requires Divides(k, v)
    ensures Low(v, k) == 0
    decreases k
  {
    if k > 0 {
      DividesLow(k - 1, v / 2);
    }
  }

  function OrbitSet(k: nat, n: nat): set<nat> {
    if n == 0 then {} else OrbitSet(k, n - 1) + {Orbit(k, n - 1)}
  }

  lemma {:induction false} OrbitSetHolds(k: nat, n: nat, w: nat)
    ensures w in OrbitSet(k, n) <==> exists i :: 0 <= i < n && Orbit(k, i) == w
    ensures w in OrbitSet(k, n) ==> w < Pow2(k)
    decreases n
  {
    if n > 0 {
      OrbitSetHolds(k, n - 1, w);
      OrbitIsRaw(k, n - 1);
      LowFits(Raw(n - 1), k);
    }
  }

  lemma {:induction false} OrbitSetSize(k: nat, n: nat)
    requires n <= Pow2(k)
    ensures |OrbitSet(k, n)| == n
    decreases n
  {
    if n > 0 {
      OrbitSetSize(k, n - 1);
      var w := Orbit(k, n - 1);
      OrbitSetHolds(k, n - 1, w);
      forall i | 0 <= i < n - 1 ensures Orbit(k, i) != w {
        OrbitInjective(k, i, n - 1);
      }
    }
  }

  function NatsBelow(n: nat): set<nat> {
    if n == 0 then {} else NatsBelow(n - 1) + {n - 1}
  }

  lemma {:induction false} NatsBelowSize(n: nat)
    ensures |NatsBelow(n)| == n && forall i: nat :: i in NatsBelow(n) <==> i < n
    decreases n
  {
    if n > 0 {
      NatsBelowSize(n - 1);
    }
  }

  lemma {:induction false} SubsetSmaller(a: set<nat>, b: set<nat>, v: nat)
    requires a <= b && v in b && v !in a
    ensures |a| < |b|
  {
    SubsetSize(a, b - {v});
  }

  lemma {:induction false} SubsetSize(a: set<nat>, b: set<nat>)
    requires a <= b
    ensures |a| <= |b|
    decreases a
  {
    if a != {} {
      var x :| x in a;
      SubsetSize(a - {x}, b - {x});
    }
  }
}
