/** C's unsigned integers as natural numbers.  The bitwise operators are defined
    one binary digit at a time, so that facts about them are inductions on digits. */
module Bits {

  type bit = b: int | 0 <= b <= 1
  type byte = b: int | 0 <= b < 256

  /** A truth value as a digit. */
  function Flag(b: bool): bit {
    if b then 1 else 0
  }

  function Pow2(n: nat): (p: nat)
    ensures p >= 1
  {
    if n == 0 then 1 else 2 * Pow2(n - 1)
  }

  /** Binary digit i of w: `(w >> i) & 1`. */
  function BitAt(w: nat, i: nat): (b: bit)
    decreases i
  {
    if i == 0 then w % 2 else BitAt(w / 2, i - 1)
  }

  /** The k lowest digits of w, and the number that is left when they are shifted out. */
  function Low(w: nat, k: nat): nat
    decreases k, w
  {
    if k == 0 then 0 else w % 2 + 2 * Low(w / 2, k - 1)
  }

  function Drop(w: nat, k: nat): nat
    decreases k, w
  {
    if k == 0 then w else Drop(w / 2, k - 1)
  }

  function AndDigit(a: nat, m: nat): bit {
    if a % 2 == 1 && m % 2 == 1 then 1 else 0
  }

  function And(a: nat, b: nat): nat
    decreases b, a
  {
    if b == 0 then 0 else AndDigit(a, b) + 2 * And(a / 2, b / 2)
  }

  function Or(a: nat, b: nat): nat
    decreases a + b
  {
    if a == 0 && b == 0 then 0
    else (if a % 2 == 1 || b % 2 == 1 then 1 else 0) + 2 * Or(a / 2, b / 2)
  }

  function Xor(a: nat, b: nat): nat
    decreases a + b
  {
    if a == 0 && b == 0 then 0
    else XorBit(a % 2, b % 2) + 2 * Xor(a / 2, b / 2)
  }

  function XorBit(a: bit, b: bit): bit {
    if a == b then 0 else 1
  }

  /** Whether the number of binary digits that are one is odd. */
  function Par(w: nat): bit {
    if w == 0 then 0 else XorBit(w % 2, Par(w / 2))
  }

  lemma {:induction false} OrAt(a: nat, b: nat, i: nat)
    ensures BitAt(Or(a, b), i) == if BitAt(a, i) == 1 || BitAt(b, i) == 1 then 1 else 0
    decreases i
  {
    if i > 0 {
      OrAt(a / 2, b / 2, i - 1);
    }
  }

  lemma {:induction false} Pow2At(n: nat, i: nat)
    ensures BitAt(Pow2(n), i) == if n == i then 1 else 0
    decreases i
  {
    if n > 0 && i > 0 {
      Pow2At(n - 1, i - 1);
    } else if i > 0 {
      ZeroAt(i - 1);
    }
  }

  lemma {:induction false} ZeroAt(i: nat)
    ensures BitAt(0, i) == 0
    decreases i
  {
    if i > 0 {
      ZeroAt(i - 1);
    }
  }

  /** A mask with one digit set tests that digit. */
  lemma {:induction false} AndPow2(w: nat, n: nat)
    ensures And(w, Pow2(n)) == if BitAt(w, n) == 1 then Pow2(n) else 0
    decreases n
  {
    var p := Pow2(n);
    if n > 0 {
      AndPow2(w / 2, n - 1);
      assert p % 2 == 0 && p / 2 == Pow2(n - 1);
    } else {
      assert And(w / 2, 0) == 0;
      assert p == 1;
    }
  }

  /** Only the digits that the mask can hold matter. */
  lemma {:induction false} AndLow(a: nat, b: nat, k: nat)
    requires b < Pow2(k)
    ensures And(a, b) == And(Low(a, k), b)
    decreases k
  {
    if b > 0 {
      AndLow(a / 2, b / 2, k - 1);
    }
  }

  lemma {:induction false} AndBound(a: nat, b: nat)
    ensures And(a, b) <= b
    decreases b
  {
    if b > 0 {
      AndBound(a / 2, b / 2);
    }
  }

  lemma {:induction false} ParStep(d: bit, w: nat)
    ensures Par(d + 2 * w) == XorBit(d, Par(w))
  {
    var v := d + 2 * w;
    assert v % 2 == d && v / 2 == w;
  }

  lemma {:induction false} ParAnd(a: nat, m: nat)
    requires m > 0
    ensures Par(And(a, m)) == XorBit(AndDigit(a, m), Par(And(a / 2, m / 2)))
  {
    var d, w := AndDigit(a, m), And(a / 2, m / 2);
    assert And(a, m) == d + 2 * w;
    ParStep(d, w);
  }

  /** Flipping a digit that the mask keeps flips the parity of what it keeps. */
  lemma {:induction false} ParFlipLow(a: nat, m: nat)
    requires a % 2 == 0 && m % 2 == 1
    ensures Par(And(a + 1, m)) == 1 - Par(And(a, m))
  {
    assert (a + 1) / 2 == a / 2;
    ParAnd(a, m);
    ParAnd(a + 1, m);
  }

  lemma {:induction false} ParFlipHigh(a: nat, m: nat, k: nat)
    requires a < Pow2(k) <= m < Pow2(k + 1)
    ensures Par(And(a + Pow2(k), m)) == 1 - Par(And(a, m))
    decreases k
  {
    if k == 0 {
      assert m == 1 && a == 0;
      assert And(1, 1) == 1 && And(0, 1) == 0;
    } else {
      var h := a + Pow2(k);
      assert h % 2 == a % 2 && h / 2 == a / 2 + Pow2(k - 1);
      ParFlipHigh(a / 2, m / 2, k - 1);
      ParAnd(h, m);
      ParAnd(a, m);
    }
  }

  lemma {:induction false} ParXor(a: nat, b: nat)
    ensures Par(Xor(a, b)) == XorBit(Par(a), Par(b))
    decreases a + b
  {
    if a + b > 0 {
      ParXor(a / 2, b / 2);
      ParStep(XorBit(a % 2, b % 2), Xor(a / 2, b / 2));
    }
  }

  lemma {:induction false} ParSplit(x: nat, k: nat)
    ensures Par(x) == XorBit(Par(Low(x, k)), Par(Drop(x, k)))
    decreases k
  {
    if k > 0 {
      ParSplit(x / 2, k - 1);
      ParStep(x % 2, Low(x / 2, k - 1));
    }
  }

  lemma {:induction false} XorLow(a: nat, b: nat, k: nat)
    ensures Low(Xor(a, b), k) == Xor(Low(a, k), Low(b, k))
    decreases k
  {
    hide Xor;
    if k > 0 {
      XorLow(a / 2, b / 2, k - 1);
      XorStep(a, b);
      var a', b' := Low(a / 2, k - 1), Low(b / 2, k - 1);
      assert (a % 2 + 2 * a') / 2 == a' && (b % 2 + 2 * b') / 2 == b';
      XorStep(Low(a, k), Low(b, k));
    } else {
      assert Xor(0, 0) == 0 by { XorNone(); }
    }
  }

  lemma {:induction false} XorStep(a: nat, b: nat)
    ensures Xor(a, b) == XorBit(a % 2, b % 2) + 2 * Xor(a / 2, b / 2)
    ensures Xor(a, b) % 2 == XorBit(a % 2, b % 2) && Xor(a, b) / 2 == Xor(a / 2, b / 2)
  {
  }

  lemma XorNone()
    ensures Xor(0, 0) == 0
  {
  }

  lemma {:induction false} LowLow(x: nat, k: nat, m: nat)
    ensures Low(Low(x, k + m), k) == Low(x, k)
    ensures Drop(Low(x, k + m), k) == Low(Drop(x, k), m)
    decreases k
  {
    if k > 0 {
      LowLow(x / 2, k - 1, m);
    }
  }

  /** Folding the digits above the k lowest onto them keeps the parity of the 2 * k lowest. */
  lemma {:induction false} ParFold(x: nat, k: nat)
    ensures Par(Low(Xor(x, Drop(x, k)), k)) == Par(Low(x, k + k))
  {
    XorLow(x, Drop(x, k), k);
    ParXor(Low(x, k), Low(Drop(x, k), k));
    ParSplit(Low(x, k + k), k);
    LowLow(x, k, k);
  }

  lemma {:induction false} AndMask(a: nat, k: nat)
    ensures And(a, Pow2(k) - 1) == Low(a, k)
    decreases k
  {
    if k > 0 {
      var p := Pow2(k - 1);
      AndMask(a / 2, k - 1);
      assert (2 * p - 1) % 2 == 1 && (2 * p - 1) / 2 == p - 1;
    }
  }

  lemma {:induction false} LowAll(x: nat, k: nat)
    requires x < Pow2(k)
    ensures Low(x, k) == x
    decreases k
  {
    if k > 0 {
      LowAll(x / 2, k - 1);
    }
  }

  /** Low and Drop are remainder and quotient by a power of two. */
  lemma {:induction false} LowDropCat(q: nat, r: nat, k: nat)
    requires r < Pow2(k)
    ensures Low(r + Pow2(k) * q, k) == r && Drop(r + Pow2(k) * q, k) == q
    decreases k
  {
    if k > 0 {
      var v := Pow2(k - 1) * q;
      var w := r + Pow2(k) * q;
      assert w == r + 2 * v;
      assert w % 2 == r % 2 && w / 2 == r / 2 + v;
      LowDropCat(q, r / 2, k - 1);
    }
  }

  lemma Pow2Values()
    ensures Pow2(6) == 64 && Pow2(7) == 128 && Pow2(8) == 0x100 && Pow2(16) == 0x1_0000
    ensures Pow2(32) == 0x1_0000_0000
  {
    assert Pow2(4) == 16;
    assert Pow2(8) == 0x100;
    assert Pow2(12) == 0x1000;
    assert Pow2(16) == 0x1_0000;
    assert Pow2(20) == 0x10_0000;
    assert Pow2(24) == 0x100_0000;
    assert Pow2(28) == 0x1000_0000;
  }

  /** A new lowest digit moves the others up. */
  lemma {:induction false} DigitShift(d: bit, w: nat, j: nat)
    ensures BitAt(d + 2 * w, 0) == d && BitAt(d + 2 * w, j + 1) == BitAt(w, j)
  {
    var v := d + 2 * w;
    assert v % 2 == d && v / 2 == w;
  }

  lemma {:induction false} LowAt(v: nat, n: nat, k: nat)
    requires k < n
    ensures BitAt(Low(v, n), k) == BitAt(v, k)
    decreases k
  {
    var w := Low(v / 2, n - 1);
    assert (v % 2 + 2 * w) % 2 == v % 2 && (v % 2 + 2 * w) / 2 == w;
    if k > 0 {
      LowAt(v / 2, n - 1, k - 1);
    }
  }

  lemma {:induction false} DropAt(v: nat, n: nat, k: nat)
    ensures BitAt(Drop(v, n), k) == BitAt(v, n + k)
    decreases n
  {
    if n > 0 {
      DropAt(v / 2, n - 1, k);
    }
  }

  /** Multiplying by a power of two moves the digits up. */
  lemma {:induction false} ScaledAt(v: nat, n: nat, i: nat)
    ensures BitAt(v * Pow2(n), i) == if i < n then 0 else BitAt(v, i - n)
    decreases n
  {
    if n > 0 {
      var w := v * Pow2(n - 1);
      assert v * Pow2(n) == 2 * w;
      assert (2 * w) % 2 == 0 && (2 * w) / 2 == w;
      if i > 0 {
        ScaledAt(v, n - 1, i - 1);
      }
    }
  }

  lemma {:induction false} Pow2Add(m: nat, n: nat)
    ensures Pow2(m + n) == Pow2(m) * Pow2(n)
    decreases m
  {
    if m > 0 {
      Pow2Add(m - 1, n);
    }
  }

  lemma {:induction false} OrFits(a: nat, b: nat, k: nat)
    requires a < Pow2(k) && b < Pow2(k)
    ensures Or(a, b) < Pow2(k)
    decreases k
  {
    if k > 0 {
      OrFits(a / 2, b / 2, k - 1);
    }
  }

  lemma {:induction false} LowFits(v: nat, k: nat)
    ensures Low(v, k) < Pow2(k)
    decreases k
  {
    if k > 0 {
      LowFits(v / 2, k - 1);
    }
  }

  lemma {:induction false} LowZero(k: nat)
    ensures Low(0, k) == 0
    decreases k
  {
    if k > 0 {
      LowZero(k - 1);
    }
  }
}
