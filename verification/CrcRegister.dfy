/** The shift register that divides by a generator polynomial of degree 16. */
module CrcRegister {
  import opened Bits

  // The operators on words, each with the few facts that the proofs need.

  function Add(a: bv16, b: bv16): bv16 {
    a ^ b
  }

  function Shift(a: bv16): bv16 {
    a << 1
  }

  predicate Top(a: bv16) {
    a & 0x8000 != 0
  }

  function TopBit(b: bit): bv16 {
    if b == 1 then 0x8000 else 0
  }

  lemma AddFour(a: bv16, b: bv16, c: bv16, d: bv16)
    ensures Add(Add(a, b), Add(c, d)) == Add(Add(a, c), Add(b, d))
  {
    hide Add;
    AddAssoc(a, b, Add(c, d));
    AddAssoc(b, c, d);
    AddCancel(b, c);
    AddAssoc(c, b, d);
    AddAssoc(a, c, Add(b, d));
  }

  lemma AddAssoc(a: bv16, b: bv16, c: bv16)
    ensures Add(Add(a, b), c) == Add(a, Add(b, c))
  {
  }

  lemma AddCancel(a: bv16, b: bv16)
    ensures Add(Add(a, b), b) == a && Add(a, 0) == a && Add(a, a) == 0 && Add(a, b) == Add(b, a)
  {
  }

  lemma AddEqual(a: bv16, b: bv16)
    ensures a == b <==> Add(a, b) == 0
  {
    XorEqual(a, b);
  }

  lemma XorEqual(a: bv16, b: bv16)
    ensures a == b <==> a ^ b == 0
  {
    assert a == (a ^ b) ^ b;
  }

  lemma ShiftAdd(a: bv16, b: bv16)
    ensures Shift(Add(a, b)) == Add(Shift(a), Shift(b))
  {
  }

  lemma TopAdd(a: bv16, b: bv16)
    ensures Top(Add(a, b)) <==> Top(a) != Top(b)
  {
    assert (a ^ b) & 0x8000 == (a & 0x8000) ^ (b & 0x8000);
    assert a & 0x8000 == 0 || a & 0x8000 == 0x8000;
    assert b & 0x8000 == 0 || b & 0x8000 == 0x8000;
  }

  lemma {:induction false} TopBitXor(a: bit, b: bit)
    ensures TopBit(XorBit(a, b)) == Add(TopBit(a), TopBit(b))
    ensures TopBit(a) == 0 || TopBit(a) == 0x8000
  {
  }

  /** One step of the division with no message bit coming in. */
  function ZeroStep(poly: bv16, v: bv16): bv16 {
    if Top(v) then Add(Shift(v), poly) else Shift(v)
  }

  /** One step of the division: the message bit is added at the top. */
  function BitStep(poly: bv16, crc: bv16, b: bit): bv16 {
    ZeroStep(poly, Add(crc, TopBit(b)))
  }

  /** The register after the first n bits of a message. */
  function Crc(poly: bv16, init: bv16, x: seq<bit>, n: nat): bv16
    requires n <= |x|
  {
    if n == 0 then init else BitStep(poly, Crc(poly, init, x, n - 1), x[n - 1])
  }

  lemma ZeroStepLinear(poly: bv16, a: bv16, b: bv16)
    ensures ZeroStep(poly, Add(a, b)) == Add(ZeroStep(poly, a), ZeroStep(poly, b))
  {
    hide Add, Shift, Top;
    TopAdd(a, b);
    ShiftAdd(a, b);
    AddFour(Shift(a), poly, Shift(b), poly);
    AddFour(Shift(a), Shift(b), poly, 0);
    AddFour(Shift(a), Shift(b), 0, poly);
    AddCancel(poly, poly);
    AddCancel(0, poly);
    AddCancel(Shift(a), 0);
    AddCancel(Shift(b), 0);
    AddCancel(Add(Shift(a), Shift(b)), poly);
    AddFour(Shift(a), 0, Shift(b), poly);
    AddFour(Shift(a), poly, Shift(b), 0);
  }

  /** A generator with a constant term loses nothing. */
  lemma ZeroStepInjective(poly: bv16, a: bv16)
    requires poly & 1 == 1 && ZeroStep(poly, a) == 0
    ensures a == 0
  {
  }

  /** The registers of two messages differ by the register of their difference. */
  lemma {:induction false} Difference(poly: bv16, c: bv16, d: bv16, a: bit, b: bit)
    ensures Add(BitStep(poly, c, a), BitStep(poly, d, b)) == BitStep(poly, Add(c, d), XorBit(a, b))
  {
    hide Add, ZeroStep, TopBit, XorBit;
    ZeroStepLinear(poly, Add(c, TopBit(a)), Add(d, TopBit(b)));
    AddFour(c, TopBit(a), d, TopBit(b));
    TopBitXor(a, b);
  }

  /** The word w after the top bit t. */
  function Join(t: bv16, w: bv16): bv16 {
    t | (w >> 1)
  }

  predicate LowClear(w: bv16) {
    w & 1 == 0
  }

  /** The next l bits of a message as a word, the first one at the top. */
  function Window(x: seq<bit>, i: nat, l: nat): bv16
    requires i + l <= |x|
    decreases l
  {
    if l == 0 then 0 else Join(TopBit(x[i]), Window(x, i + 1, l - 1))
  }

  /** The 16 - l lowest bits. */
  function Below(l: nat): bv16
    requires l <= 16
  {
    if l == 0 then 0xffff else Below(l - 1) >> 1
  }

  lemma {:induction false} BelowNext(l: nat)
    requires l <= 16
    ensures l > 0 ==> Below(l) == Below(l - 1) >> 1
  {
  }

  lemma {:induction false} BelowHasLowest(l: nat)
    requires l <= 15
    ensures Below(l) & 1 == 1
  {
    BelowValues();
  }

  lemma BelowValues()
    ensures Below(1) == 0x7fff && Below(2) == 0x3fff && Below(3) == 0x1fff && Below(4) == 0xfff
    ensures Below(5) == 0x7ff && Below(6) == 0x3ff && Below(7) == 0x1ff && Below(8) == 0xff
    ensures Below(9) == 0x7f && Below(10) == 0x3f && Below(11) == 0x1f && Below(12) == 0xf
    ensures Below(13) == 7 && Below(14) == 3 && Below(15) == 1
  {
  }

  lemma {:induction false} WindowIsHigh(e: seq<bit>, i: nat, l: nat)
    requires i + l <= |e| && l <= 16
    ensures Window(e, i, l) & Below(l) == 0
    decreases l
  {
    hide TopBit, XorBit, Below;
    BelowNext(l);
    if l > 0 {
      TopBitXor(e[i], 0);
      WindowIsHigh(e, i + 1, l - 1);
      HighShift(Window(e, i + 1, l - 1), Below(l - 1), TopBit(e[i]));
    }
  }

  lemma HighShift(w: bv16, m: bv16, t: bv16)
    requires w & m == 0 && (t == 0 || t == 0x8000)
    ensures Join(t, w) & (m >> 1) == 0
  {
  }

  lemma StepBack(poly: bv16, d: bv16, t: bv16, w: bv16)
    requires poly & 1 == 1 && (t == 0 || t == 0x8000) && LowClear(w) && ZeroStep(poly, Add(d, t)) == w
    ensures d == Join(t, w)
  {
  }

  /** If the registers agree l steps from now, their difference now is the window of differences. */
  lemma {:induction false} DifferenceIsWindow(poly: bv16, init: bv16, x: seq<bit>, y: seq<bit>, e: seq<bit>, i: nat, l: nat)
    requires poly & 1 == 1 && |x| == |y| == |e| && i + l <= |x| && l <= 16
    requires forall k :: 0 <= k < |x| ==> e[k] == XorBit(x[k], y[k])
    requires Crc(poly, init, x, i + l) == Crc(poly, init, y, i + l)
    ensures Add(Crc(poly, init, x, i), Crc(poly, init, y, i)) == Window(e, i, l)
    decreases l
  {
    hide Add, ZeroStep, TopBit, XorBit, Below, Join, LowClear;
    if l > 0 {
      TopBitXor(e[i], 0);
      DifferenceIsWindow(poly, init, x, y, e, i + 1, l - 1);
      var c, d := Crc(poly, init, x, i), Crc(poly, init, y, i);
      var w := Window(e, i + 1, l - 1);
      Difference(poly, c, d, x[i], y[i]);
      WindowIsHigh(e, i + 1, l - 1);
      BelowHasLowest(l - 1);
      LowestClear(w, Below(l - 1));
      StepBack(poly, Add(c, d), TopBit(e[i]), w);
    } else {
      AddCancel(Crc(poly, init, x, i), 0);
    }
  }

  lemma LowestClear(w: bv16, m: bv16)
    requires w & m == 0 && m & 1 == 1
    ensures LowClear(w)
  {
  }

  lemma JoinZero(t: bv16, w: bv16)
    requires Join(t, w) == 0 && LowClear(w)
    ensures t == 0 && w == 0
  {
  }

  lemma {:induction false} WindowZero(e: seq<bit>, i: nat, l: nat)
    requires i + l <= |e| && l <= 16 && Window(e, i, l) == 0
    ensures forall k :: i <= k < i + l ==> e[k] == 0
    decreases l
  {
    hide Below;
    if l > 0 {
      var w := Window(e, i + 1, l - 1);
      WindowIsHigh(e, i + 1, l - 1);
      BelowHasLowest(l - 1);
      LowestClear(w, Below(l - 1));
      JoinZero(TopBit(e[i]), w);
      WindowZero(e, i + 1, l - 1);
    }
  }

  lemma {:induction false} SamePrefix(poly: bv16, init: bv16, x: seq<bit>, y: seq<bit>, n: nat)
    requires n <= |x| && n <= |y| && forall k :: 0 <= k < n ==> x[k] == y[k]
    ensures Crc(poly, init, x, n) == Crc(poly, init, y, n)
    decreases n
  {
    hide BitStep;
    if n > 0 {
      SamePrefix(poly, init, x, y, n - 1);
    }
  }

  lemma {:induction false} SameSuffix(poly: bv16, init: bv16, x: seq<bit>, y: seq<bit>, i: nat, n: nat)
    requires poly & 1 == 1 && |x| == |y| && i <= n <= |x| && forall k :: i <= k < n ==> x[k] == y[k]
    requires Crc(poly, init, x, n) == Crc(poly, init, y, n)
    ensures Crc(poly, init, x, i) == Crc(poly, init, y, i)
    decreases n
  {
    hide BitStep, Add, XorBit;
    if i < n {
      var c, d := Crc(poly, init, x, n - 1), Crc(poly, init, y, n - 1);
      Difference(poly, c, d, x[n - 1], y[n - 1]);
      AddEqual(Crc(poly, init, x, n), Crc(poly, init, y, n));
      SameBack(poly, Add(c, d), XorBit(x[n - 1], y[n - 1]));
      XorSame(x[n - 1], y[n - 1]);
      AddEqual(c, d);
      SameSuffix(poly, init, x, y, i, n - 1);
    }
  }

  lemma {:induction false} XorSame(a: bit, b: bit)
    ensures XorBit(a, b) == 0 <==> a == b
  {
  }

  lemma {:induction false} SameBack(poly: bv16, d: bv16, b: bit)
    requires poly & 1 == 1 && BitStep(poly, d, b) == 0
    ensures b == 0 ==> d == 0
  {
    hide ZeroStep, Add;
    ZeroStepInjective(poly, Add(d, TopBit(b)));
    AddCancel(d, 0);
  }

  /** Every burst of at most 16 bits changes the register: two different messages of the same
      length that differ only inside a window of 16 bits never end in the same register. */
  lemma {:induction false} BurstDetected(poly: bv16, init: bv16, x: seq<bit>, y: seq<bit>, a: nat)
    requires poly & 1 == 1 && |x| == |y| && x != y
    requires forall k :: 0 <= k < |x| && !(a <= k < a + 16) ==> x[k] == y[k]
    ensures Crc(poly, init, x, |x|) != Crc(poly, init, y, |y|)
  {
    hide BitStep, Window;
    if Crc(poly, init, x, |x|) == Crc(poly, init, y, |y|) && a <= |x| {
      var l := if a + 16 <= |x| then 16 else |x| - a;
      var e := seq(|x|, k requires 0 <= k < |x| => XorBit(x[k], y[k]));
      SameSuffix(poly, init, x, y, a + l, |x|);
      SamePrefix(poly, init, x, y, a);
      DifferenceIsWindow(poly, init, x, y, e, a, l);
      WindowZero(e, a, l);
    }
  }

  /** n steps with no message bits coming in. */
  function Zeros(poly: bv16, v: bv16, n: nat): bv16
    decreases n
  {
    if n == 0 then v else Zeros(poly, ZeroStep(poly, v), n - 1)
  }

  lemma {:induction false} ZerosLinear(poly: bv16, a: bv16, b: bv16, n: nat)
    ensures Zeros(poly, Add(a, b), n) == Add(Zeros(poly, a, n), Zeros(poly, b, n))
    decreases n
  {
    hide Add, ZeroStep;
    if n > 0 {
      ZeroStepLinear(poly, a, b);
      ZerosLinear(poly, ZeroStep(poly, a), ZeroStep(poly, b), n - 1);
    }
  }

  lemma {:induction false} ZerosInjective(poly: bv16, a: bv16, n: nat)
    requires poly & 1 == 1
    ensures Zeros(poly, a, n) == 0 <==> a == 0
    decreases n
  {
    hide ZeroStep;
    if n > 0 {
      ZerosInjective(poly, ZeroStep(poly, a), n - 1);
      if ZeroStep(poly, a) == 0 {
        ZeroStepInjective(poly, a);
      }
      ZeroStepZero(poly);
    }
  }

  lemma ZeroStepZero(poly: bv16)
    ensures ZeroStep(poly, 0) == 0
  {
  }

  /** Feeding a bit is the same as having it at the top of a word that is added to the register. */
  lemma {:induction false} FeedTop(poly: bv16, s: bv16, b: bit, w: bv16)
    requires LowClear(w)
    ensures Add(BitStep(poly, s, b), w) == ZeroStep(poly, Add(s, Join(TopBit(b), w)))
  {
    hide Add, Join, TopBit, LowClear, ZeroStep;
    var h := Join(0, w);
    TopBitXor(b, 0);
    JoinParts(TopBit(b), w);
    AddAssoc(s, TopBit(b), h);
    ZeroStepLinear(poly, Add(s, TopBit(b)), h);
    HalfStep(poly, w);
  }

  lemma JoinParts(t: bv16, w: bv16)
    requires t == 0 || t == 0x8000
    ensures Join(t, w) == Add(t, Join(0, w))
  {
  }

  lemma HalfStep(poly: bv16, w: bv16)
    requires LowClear(w)
    ensures ZeroStep(poly, Join(0, w)) == w
  {
  }

  lemma {:induction false} WindowLowClear(e: seq<bit>, i: nat, l: nat)
    requires i + l <= |e| && l <= 15
    ensures LowClear(Window(e, i, l))
  {
    hide LowClear, Below, Window;
    WindowIsHigh(e, i, l);
    BelowHasLowest(l);
    LowestClear(Window(e, i, l), Below(l));
  }

  /** Feeding l bits is adding them as a word and then feeding nothing for l steps. */
  lemma {:induction false} FeedWindow(poly: bv16, init: bv16, x: seq<bit>, i: nat, l: nat)
    requires i + l <= |x| && l <= 16
    ensures Crc(poly, init, x, i + l) == Zeros(poly, Add(Crc(poly, init, x, i), Window(x, i, l)), l)
    decreases l
  {
    hide Add, ZeroStep, BitStep, Join, TopBit;
    if l > 0 {
      FeedWindow(poly, init, x, i + 1, l - 1);
      WindowLowClear(x, i + 1, l - 1);
      FeedTop(poly, Crc(poly, init, x, i), x[i], Window(x, i + 1, l - 1));
    } else {
      AddCancel(Crc(poly, init, x, i), 0);
    }
  }

  /** A message divides without remainder if and only if its last 16 bits are the remainder
      of what precedes them. */
  lemma {:induction false} AcceptedIff(poly: bv16, init: bv16, x: seq<bit>, n: nat)
    requires poly & 1 == 1 && |x| == n + 16
    ensures Crc(poly, init, x, n + 16) == 0 <==> Window(x, n, 16) == Crc(poly, init, x, n)
  {
    hide Add;
    FeedWindow(poly, init, x, n, 16);
    ZerosInjective(poly, Add(Crc(poly, init, x, n), Window(x, n, 16)), 16);
    AddEqual(Crc(poly, init, x, n), Window(x, n, 16));
  }
}
