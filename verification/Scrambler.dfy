/** Energy dispersal: the pseudo-random sequence and the scrambler that adds it. */
module Scrambler {
  import opened Bits

  /** p[i] = p[i - 5] xor p[i - 9], with ones before the start (P(X) = X^9 + X^5 + 1). */
  function Prbs(i: int): bool
    decreases if i < 0 then 0 else i + 1
  {
    if i < 0 then true else Prbs(i - 5) != Prbs(i - 9)
  }

  function PrbsBit(i: int): bit {
    if Prbs(i) then 1 else 0
  }

  function ScrambledAt(x: seq<byte>, i: nat): nat
    requires i < |x|
  {
    Xor(x[i], PrbsBit(i))
  }

  lemma {:induction false} XorTwice(a: nat, b: nat)
    ensures Xor(Xor(a, b), b) == a
    decreases a + b
  {
    if a + b > 0 {
      XorTwice(a / 2, b / 2);
      var d, w := XorBit(a % 2, b % 2), Xor(a / 2, b / 2);
      assert Xor(a, b) == d + 2 * w;
      assert (d + 2 * w) % 2 == d && (d + 2 * w) / 2 == w;
    }
  }

  lemma {:induction false} XorBitByte(v: byte, b: bit)
    ensures Xor(v, b) == (if b == 0 then v else if v % 2 == 0 then v + 1 else v - 1) && Xor(v, b) < 256
  {
    XorNothing(v / 2);
    XorNothing(v);
  }

  lemma {:induction false} XorNothing(v: nat)
    ensures Xor(v, 0) == v
  {
    if v > 0 {
      XorNothing(v / 2);
    }
  }

  /** The 16-bit register shifted up, with digit d entering. */
  function ShiftedUp(v: nat): nat {
    2 * v % 0x1_0000
  }

  lemma {:induction false} ShiftedUpAt(v: nat, d: bit, k: nat)
    requires k < 15
    ensures BitAt(ShiftedUp(v) + d, 0) == d && BitAt(ShiftedUp(v) + d, k + 1) == BitAt(v, k)
  {
    hide BitAt, Low, Drop, Pow2;
    var h := v % 0x8000;
    UpIsTwice(v);
    Fifteen();
    LowDropCat(v / 0x8000, h, 15);
    LowAt(v, 15, k);
    DigitShift(d, h, k);
  }

  lemma {:induction false} UpIsTwice(v: nat)
    ensures ShiftedUp(v) == 2 * (v % 0x8000)
  {
    assert 2 * v == 0x1_0000 * (v / 0x8000) + 2 * (v % 0x8000);
  }

  lemma Fifteen()
    ensures Pow2(15) == 0x8000
  {
    Pow2Values();
    assert Pow2(16) == 2 * Pow2(15);
  }

  /** `scramble`, with the register as a 16-bit number of which nine digits matter. */
  method Scramble(ibuf: array<byte>, obuf: array<byte>, len: nat)
    requires len <= ibuf.Length && len <= obuf.Length && ibuf != obuf
    modifies obuf
    ensures forall i :: 0 <= i < len ==> obuf[i] == ScrambledAt(old(ibuf[..]), i)
    ensures obuf[len..] == old(obuf[len..])
  {
    hide BitAt, Xor, ShiftedUp;
    var v: nat := 0x1ff;
    StartRegister();
    for i := 0 to len
      invariant forall k :: 0 <= k < 9 ==> BitAt(v, k) == PrbsBit(i - 1 - k)
      invariant forall k :: 0 <= k < i ==> obuf[k] == ScrambledAt(ibuf[..], k)
      invariant obuf[len..] == old(obuf[len..])
    {
      var s := ShiftedUp(v);
      ShiftedUpAt(v, 0, 8);
      ShiftedUpAt(v, 0, 4);
      var v0 := XorBit(BitAt(s, 9), BitAt(s, 5));
      NextPrbs(i);
      ghost var before := v;
      v := s + v0;
      forall k | 0 <= k < 9 ensures BitAt(v, k) == PrbsBit(i - k) {
        ShiftedUpAt(before, v0, if k == 0 then 0 else k - 1);
      }
      XorBitByte(ibuf[i], v0);
      obuf[i] := Xor(ibuf[i], v0);
    }
  }

  lemma StartRegister()
    ensures forall k :: 0 <= k < 9 ==> BitAt(0x1ff, k) == PrbsBit(-1 - k)
  {
    assert BitAt(0x1ff, 0) == 1 && BitAt(0x1ff, 1) == 1 && BitAt(0x1ff, 2) == 1 && BitAt(0x1ff, 3) == 1;
    assert BitAt(0x1ff, 4) == 1 && BitAt(0x1ff, 5) == 1 && BitAt(0x1ff, 6) == 1 && BitAt(0x1ff, 7) == 1;
    assert BitAt(0x1ff, 8) == 1;
  }

  lemma {:induction false} NextPrbs(i: nat)
    ensures PrbsBit(i) == XorBit(PrbsBit(i - 9), PrbsBit(i - 5))
  {
  }

  /** Scrambling a scrambled buffer restores it. */
  lemma {:induction false} ScrambleTwice(x: seq<byte>, y: seq<byte>, i: nat)
    requires i < |x| == |y| && forall k :: 0 <= k < |x| ==> y[k] == ScrambledAt(x, k)
    ensures ScrambledAt(y, i) == x[i]
  {
    XorTwice(x[i], PrbsBit(i));
  }

  /** A buffer of bits after scrambling. */
  function Dispersed(u: seq<bit>): (x: seq<bit>)
    ensures |x| == |u|
  {
    seq(|u|, i requires 0 <= i < |u| => XorBit(u[i], PrbsBit(i)))
  }

  lemma {:induction false} ScrambledBit(u: seq<bit>, i: nat)
    requires i < |u|
    ensures ScrambledAt(u, i) == Dispersed(u)[i]
  {
    XorBitByte(u[i], PrbsBit(i));
  }

  lemma {:induction false} DispersedPrefix(x: seq<byte>, y: seq<byte>, u: seq<bit>)
    requires |u| <= |x| && |u| <= |y| && x[..|u|] == u && forall i :: 0 <= i < |u| ==> y[i] == ScrambledAt(x, i)
    ensures y[..|u|] == Dispersed(u)
  {
    hide Prbs;
    forall i | 0 <= i < |u| ensures y[i] == Dispersed(u)[i] {
      assert x[i] == u[i];
      ScrambledBit(u, i);
    }
  }

  lemma {:induction false} DispersedTwice(u: seq<bit>)
    ensures Dispersed(Dispersed(u)) == u
  {
    hide Prbs;
  }

  // The sequence repeats after 511 bits.

  lemma {:induction false} Nine(i: nat)
    ensures Prbs(i + 9) == (Prbs(i + 4) != Prbs(i))
  {
  }

  /** The recurrence for i .. i + 7 expresses p[i + 9] to p[i + 16] by nine consecutive bits. */
  lemma {:induction false} Nines(i: nat)
    ensures Prbs(i + 9) == (Prbs(i + 4) != Prbs(i)) && Prbs(i + 10) == (Prbs(i + 5) != Prbs(i + 1))
    ensures Prbs(i + 11) == (Prbs(i + 6) != Prbs(i + 2)) && Prbs(i + 12) == (Prbs(i + 7) != Prbs(i + 3))
    ensures Prbs(i + 13) == (Prbs(i + 8) != Prbs(i + 4)) && Prbs(i + 14) == (Prbs(i + 9) != Prbs(i + 5))
    ensures Prbs(i + 15) == (Prbs(i + 10) != Prbs(i + 6)) && Prbs(i + 16) == (Prbs(i + 11) != Prbs(i + 7))
  {
    hide Prbs;
    Nine(i);
    Nine(i + 1);
    Nine(i + 2);
    Nine(i + 3);
    Nine(i + 4);
    Nine(i + 5);
    Nine(i + 6);
    Nine(i + 7);
  }

  lemma {:induction false} Ahead16(i: nat)
    ensures Prbs(i + 16) == ((Prbs(i + 2) != Prbs(i + 6)) != Prbs(i + 7))
  {
    hide Prbs;
    Nines(i);
  }

  lemma {:induction false} Ahead32(i: nat)
    ensures Prbs(i + 32) == (((Prbs(i) != Prbs(i + 3)) != Prbs(i + 5)) != Prbs(i + 7))
  {
    hide Prbs;
    Ahead16(i + 16);
    Ahead16(i + 2);
    Ahead16(i + 6);
    Ahead16(i + 7);
    Nines(i);
  }

  lemma {:induction false} Ahead64(i: nat)
    ensures Prbs(i + 64) == ((Prbs(i + 1) != Prbs(i + 4)) != Prbs(i + 6))
  {
    hide Prbs;
    Ahead32(i + 32);
    Ahead32(i);
    Ahead32(i + 3);
    Ahead32(i + 5);
    Ahead32(i + 7);
    Nines(i);
  }

  lemma {:induction false} Ahead128(i: nat)
    ensures Prbs(i + 128) == (((Prbs(i + 2) != Prbs(i + 3)) != Prbs(i + 7)) != Prbs(i + 8))
  {
    hide Prbs;
    Ahead64(i + 64);
    Ahead64(i + 1);
    Ahead64(i + 4);
    Ahead64(i + 6);
    Nines(i);
  }

  lemma {:induction false} Ahead256(i: nat)
    ensures Prbs(i + 256) == (((Prbs(i) != Prbs(i + 2)) != Prbs(i + 5)) != Prbs(i + 7))
  {
    hide Prbs;
    Ahead128(i + 128);
    Ahead128(i + 2);
    Ahead128(i + 3);
    Ahead128(i + 7);
    Ahead128(i + 8);
    Nines(i);
  }

  lemma {:induction false} Ahead512(i: nat)
    ensures Prbs(i + 512) == Prbs(i + 1)
  {
    hide Prbs;
    Ahead256(i + 256);
    Ahead256(i);
    Ahead256(i + 2);
    Ahead256(i + 5);
    Ahead256(i + 7);
    Nines(i);
  }

  ghost predicate Period(d: nat) {
    forall i: nat :: Prbs(i + d) == Prbs(i)
  }

  lemma Period511()
    ensures Period(511)
  {
    hide Prbs;
    forall i: nat ensures Prbs(i + 511) == Prbs(i) {
      Nine(i);
      Nine(i + 511);
      Ahead512(i + 8);
      Ahead512(i + 3);
    }
  }

  lemma {:induction false} PeriodMinus(a: nat, b: nat)
    requires b <= a && Period(a) && Period(b)
    ensures Period(a - b)
  {
    hide Prbs;
    forall i: nat ensures Prbs(i + (a - b)) == Prbs(i) {
      assert Prbs((i + (a - b)) + b) == Prbs(i + (a - b));
      assert Prbs(i + a) == Prbs(i);
      assert (i + (a - b)) + b == i + a;
    }
  }

  lemma {:induction false} CommonPeriod(a: nat, b: nat) returns (g: nat, x: nat, y: nat)
    requires 0 < b <= a && Period(a) && Period(b)
    ensures 0 < g <= b && Period(g) && a == g * x && b == g * y
    decreases a + b
  {
    hide Period;
    if a == b {
      g, x, y := a, 1, 1;
    } else {
      PeriodMinus(a, b);
      if a - b >= b {
        g, x, y := CommonPeriod(a - b, b);
      } else {
        g, y, x := CommonPeriod(b, a - b);
      }
      assert g * x + g * y == g * (x + y);
      x := x + y;
    }
  }

  lemma {:induction false} SmallFactor(k: nat, m: nat)
    requires 1 <= k <= 22 && k * m == 511
    ensures k == 1 || (k == 7 && m == 73)
  {
    assert k == 1 || k == 2 || k == 3 || k == 4 || k == 5 || k == 6 || k == 7 || k == 8 || k == 9 || k == 10
           || k == 11 || k == 12 || k == 13 || k == 14 || k == 15 || k == 16 || k == 17 || k == 18 || k == 19
           || k == 20 || k == 21 || k == 22;
  }

  lemma {:induction false} OneIsSmall(g: nat, x: nat)
    requires g * x == 511
    ensures g <= 22 || x <= 22
  {
    MulLarge(g, x);
  }

  lemma {:induction false} MulLarge(g: nat, x: nat)
    ensures g >= 23 && x >= 23 ==> g * x >= 529
  {
  }

  lemma {:induction false} Factors(g: nat, x: nat)
    requires g * x == 511 && g < 511
    ensures g == 1 || g == 7 || g == 73
  {
    OneIsSmall(g, x);
    if g <= 22 {
      SmallFactor(g, x);
    } else {
      SmallFactor(x, g);
    }
  }

  lemma ProperDivisorsAreNoPeriods()
    ensures !Period(1) && !Period(7) && !Period(73)
  {
    hide Prbs;
    FirstBits();
    LaterBits();
    assert Prbs(4 + 1) != Prbs(4);
    assert Prbs(0 + 7) != Prbs(0);
    assert Prbs(2 + 73) != Prbs(2);
  }

  lemma FirstBits()
    ensures !Prbs(0) && !Prbs(1) && !Prbs(2) && !Prbs(3) && !Prbs(4)
    ensures Prbs(5) && Prbs(6) && Prbs(7) && Prbs(8)
  {
  }

  lemma LaterBits()
    ensures Prbs(75)
  {
    hide Prbs;
    FirstBits();
    Ahead64(11);
    Nines(0);
    Nines(4);
    Nines(8);
  }

  /** 511 is the least period. */
  lemma {:induction false} LeastPeriod(d: nat)
    requires 0 < d < 511
    ensures !Period(d)
  {
    hide Period;
    if Period(d) {
      Period511();
      var g, x, y := CommonPeriod(511, d);
      Factors(g, x);
      ProperDivisorsAreNoPeriods();
    }
  }
}
