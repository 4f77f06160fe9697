/** The rate 1/4, constraint length 7 mother code: the parity table, the shift register
    outputs, and what the four polynomials have in common. */
module ConvCode {
  import opened Bits

  const K := 7
  const N := 4

  function Poly47(j: nat): nat
    requires j < N
  {
    if j == 0 then 0x6d else if j == 1 then 0x4f else if j == 2 then 0x53 else 0x6d
  }

  /** Output j of the encoder whose shift register holds r. */
  function Out(r: nat, j: nat): bit
    requires j < N
  {
    Par(And(r, Poly47(j)))
  }

  /** Only the newest seven bits of the register matter. */
  lemma {:induction false} OutLow(r: nat, j: nat)
    requires j < N
    ensures Out(r, j) == Out(r % 128, j)
  {
    Pow2Values();
    AndLow(r, Poly47(j), 7);
    LowDropCat(r / 128, r % 128, 7);
  }

  /** All four polynomials tap the newest and the oldest bit. */
  lemma {:induction false} OutFlipNewest(h: nat, j: nat)
    requires h % 2 == 0 && j < N
    ensures Out(h + 1, j) == 1 - Out(h, j)
  {
    ParFlipLow(h, Poly47(j));
  }

  lemma {:induction false} OutFlipOldest(h: nat, j: nat)
    requires h < 64 && j < N
    ensures Out(h + 64, j) == 1 - Out(h, j)
  {
    Pow2Values();
    ParFlipHigh(h, Poly47(j), 6);
  }

  /** Sixteen consecutive entries of the parity table. */
  function ParityRow(flip: bool): seq<bit> {
    if flip then [1, 0, 0, 1, 0, 1, 1, 0, 0, 1, 1, 0, 1, 0, 0, 1]
    else [0, 1, 1, 0, 1, 0, 0, 1, 1, 0, 0, 1, 0, 1, 1, 0]
  }

  /** The parity of a number from its last four digits and the rest. */
  lemma {:induction false} ParNibble(a: bit, b: bit, c: bit, d: bit, i: nat)
    ensures Par(a + 2 * b + 4 * c + 8 * d + 16 * i) == XorBit(a, XorBit(b, XorBit(c, XorBit(d, Par(i)))))
  {
    hide Par, XorBit;
    ParStep(a, b + 2 * c + 4 * d + 8 * i);
    ParStep(b, c + 2 * d + 4 * i);
    ParStep(c, d + 2 * i);
    ParStep(d, i);
  }

  lemma {:induction false} ParityRowDigits(a: bit, b: bit, c: bit, d: bit, p: bit)
    ensures ParityRow(p == 1)[a + 2 * b + 4 * c + 8 * d] == XorBit(a, XorBit(b, XorBit(c, XorBit(d, p))))
  {
    var row := ParityRow(p == 1);
    assert d == 0 || d == 1;
    assert c == 0 || c == 1;
    assert b == 0 || b == 1;
    assert a == 0 || a == 1;
  }

  lemma {:induction false} ParityRowAt(k: nat, i: nat)
    requires k < 16
    ensures ParityRow(Par(i) == 1)[k] == Par(k + 16 * i)
  {
    var a, b, c, d := k % 2, k / 2 % 2, k / 4 % 2, k / 8;
    assert k == a + 2 * b + 4 * c + 8 * d;
    ParNibble(a, b, c, d, i);
    ParityRowDigits(a, b, c, d, Par(i));
  }

  method AddParityRow(tab: seq<bit>, i: nat, row: seq<bit>) returns (tab': seq<bit>)
    requires |tab| == 16 * i && forall x :: 0 <= x < |tab| ==> tab[x] == Par(x)
    requires row == ParityRow(Par(i) == 1)
    ensures |tab'| == 16 * (i + 1) && forall x :: 0 <= x < |tab'| ==> tab'[x] == Par(x)
  {
    tab' := tab + row;
    forall x | |tab| <= x < |tab'| ensures tab'[x] == Par(x) {
      ParityRowAt(x - 16 * i, i);
    }
  }

  /** The 8-bit parity lookup table, row by row. */
  method Partab() returns (tab: seq<bit>)
    ensures |tab| == 256
    ensures forall x :: 0 <= x < 256 ==> tab[x] == Par(x)
  {
    tab := AddParityRow([], 0, [0, 1, 1, 0, 1, 0, 0, 1, 1, 0, 0, 1, 0, 1, 1, 0]);
    tab := AddParityRow(tab, 1, [1, 0, 0, 1, 0, 1, 1, 0, 0, 1, 1, 0, 1, 0, 0, 1]);
    tab := AddParityRow(tab, 2, [1, 0, 0, 1, 0, 1, 1, 0, 0, 1, 1, 0, 1, 0, 0, 1]);
    tab := AddParityRow(tab, 3, [0, 1, 1, 0, 1, 0, 0, 1, 1, 0, 0, 1, 0, 1, 1, 0]);
    tab := AddParityRow(tab, 4, [1, 0, 0, 1, 0, 1, 1, 0, 0, 1, 1, 0, 1, 0, 0, 1]);
    tab := AddParityRow(tab, 5, [0, 1, 1, 0, 1, 0, 0, 1, 1, 0, 0, 1, 0, 1, 1, 0]);
    tab := AddParityRow(tab, 6, [0, 1, 1, 0, 1, 0, 0, 1, 1, 0, 0, 1, 0, 1, 1, 0]);
    tab := AddParityRow(tab, 7, [1, 0, 0, 1, 0, 1, 1, 0, 0, 1, 1, 0, 1, 0, 0, 1]);
    tab := AddParityRow(tab, 8, [1, 0, 0, 1, 0, 1, 1, 0, 0, 1, 1, 0, 1, 0, 0, 1]);
    tab := AddParityRow(tab, 9, [0, 1, 1, 0, 1, 0, 0, 1, 1, 0, 0, 1, 0, 1, 1, 0]);
    tab := AddParityRow(tab, 10, [0, 1, 1, 0, 1, 0, 0, 1, 1, 0, 0, 1, 0, 1, 1, 0]);
    tab := AddParityRow(tab, 11, [1, 0, 0, 1, 0, 1, 1, 0, 0, 1, 1, 0, 1, 0, 0, 1]);
    tab := AddParityRow(tab, 12, [0, 1, 1, 0, 1, 0, 0, 1, 1, 0, 0, 1, 0, 1, 1, 0]);
    tab := AddParityRow(tab, 13, [1, 0, 0, 1, 0, 1, 1, 0, 0, 1, 1, 0, 1, 0, 0, 1]);
    tab := AddParityRow(tab, 14, [1, 0, 0, 1, 0, 1, 1, 0, 0, 1, 1, 0, 1, 0, 0, 1]);
    tab := AddParityRow(tab, 15, [0, 1, 1, 0, 1, 0, 0, 1, 1, 0, 0, 1, 0, 1, 1, 0]);
  }

  /** The 32 digits of a C integer: two's complement. */
  function Digits32(x: int): (w: nat)
    requires -0x8000_0000 <= x < 0x8000_0000
    ensures w < 0x1_0000_0000
  {
    x % 0x1_0000_0000
  }

  /** And the integer with these digits. */
  function Signed32(w: nat): (x: int)
    requires w < 0x1_0000_0000
    ensures -0x8000_0000 <= x < 0x8000_0000 && Digits32(x) == w
  {
    if w < 0x8000_0000 then w else w - 0x1_0000_0000
  }

  /** `parity` is the parity of all digits of its argument; the shifts of negative numbers bring in ones,
      but none of them reaches the lowest eight digits. */
  method Parity(x: int) returns (p: bit)
    requires -0x8000_0000 <= x < 0x8000_0000
    ensures p == Par(Digits32(x))
  {
    hide Par, Xor;
    var partab := Partab();
    XorFits(Digits32(x), Digits32(x / 0x1_0000));
    var y := Signed32(Xor(Digits32(x), Digits32(x / 0x1_0000)));
    var z := Xor(Digits32(y), Digits32(y / 0x100));
    p := partab[z % 0x100];
    FoldToByte(x, y);
  }

  lemma {:induction false} XorFits(a: nat, b: nat)
    requires a < 0x1_0000_0000 && b < 0x1_0000_0000
    ensures Xor(a, b) < 0x1_0000_0000
  {
    hide Xor, Low;
    Pow2Values();
    XorLow(a, b, 32);
    LowAll(a, 32);
    LowAll(b, 32);
    LowFits(Xor(a, b), 32);
  }

  lemma {:induction false} Halves16(w: nat)
    ensures Low(w, 16) == w % 0x1_0000 && Drop(w, 16) == w / 0x1_0000
  {
    hide Low, Drop, Pow2;
    Pow2Values();
    var q, r := w / 0x1_0000, w % 0x1_0000;
    assert w == r + 0x1_0000 * q;
    LowDropCat(q, r, 16);
  }

  lemma {:induction false} Halves8(w: nat)
    ensures Low(w, 8) == w % 0x100 && Drop(w, 8) == w / 0x100
  {
    hide Low, Drop, Pow2;
    Pow2Values();
    var q, r := w / 0x100, w % 0x100;
    assert w == r + 0x100 * q;
    LowDropCat(q, r, 8);
  }

  /** A number as its sign, its upper and its lower half. */
  lemma {:induction false} SameLow16(x: int)
    requires -0x8000_0000 <= x < 0x8000_0000
    ensures Digits32(x / 0x1_0000) % 0x1_0000 == Digits32(x) / 0x1_0000
  {
    var h, l := x / 0x1_0000, x % 0x1_0000;
    assert x == 0x1_0000 * h + l;
    var u := if h < 0 then h + 0x1_0000 else h;
    Digits32Is(x, 0x1_0000 * u + l);
    Digits32Is(h, if h < 0 then h + 0x1_0000_0000 else h);
    if h < 0 {
      Halves(h + 0x1_0000_0000, 0xffff, u);
    } else {
      Halves(h, 0, u);
    }
    Halves(0x1_0000 * u + l, u, l);
  }

  lemma {:induction false} Digits32Is(x: int, w: int)
    requires -0x8000_0000 <= x < 0x8000_0000 && w == if x < 0 then x + 0x1_0000_0000 else x
    ensures Digits32(x) == w
  {
  }

  lemma {:induction false} Halves(w: nat, h: nat, l: nat)
    requires w == 0x1_0000 * h + l && l < 0x1_0000
    ensures w % 0x1_0000 == l && w / 0x1_0000 == h
  {
  }

  lemma {:induction false} SameLow8(x: int)
    requires -0x8000_0000 <= x < 0x8000_0000
    ensures Digits32(x / 0x100) % 0x100 == Digits32(x) / 0x100 % 0x100
  {
    var q, l := x / 0x100, x % 0x100;
    assert x == 0x100 * q + l;
    var u := if q < 0 then q + 0x100_0000 else q;
    Digits32Is(x, 0x100 * u + l);
    Digits32Is(q, if q < 0 then q + 0x1_0000_0000 else q);
    LowByte(0x100 * u + l, u, l);
    if q < 0 {
      SameByte(q + 0x1_0000_0000, u);
    }
  }

  lemma {:induction false} LowByte(w: nat, h: nat, l: nat)
    requires w == 0x100 * h + l && l < 0x100
    ensures w % 0x100 == l && w / 0x100 == h
  {
  }

  lemma {:induction false} SameByte(v: nat, w: nat)
    requires v == w + 0xff00_0000
    ensures v % 0x100 == w % 0x100
  {
    LowByte(v, w / 0x100 + 0xff_0000, w % 0x100);
  }

  /** The lowest digits of an arithmetic shift are those of the digits shifted. */
  lemma {:induction false} ShiftedLow16(x: int)
    requires -0x8000_0000 <= x < 0x8000_0000
    ensures Low(Digits32(x / 0x1_0000), 16) == Low(Drop(Digits32(x), 16), 16)
  {
    hide Low, Drop, Digits32;
    var w, v := Digits32(x), Digits32(x / 0x1_0000);
    Halves16(w);
    Halves16(v);
    SameLow16(x);
    Halves16(w / 0x1_0000);
    UpperHalf(w);
  }

  lemma {:induction false} UpperHalf(w: nat)
    requires w < 0x1_0000_0000
    ensures w / 0x1_0000 % 0x1_0000 == w / 0x1_0000
  {
    assert w / 0x1_0000 < 0x1_0000;
  }

  lemma {:induction false} ShiftedLow8(x: int)
    requires -0x8000_0000 <= x < 0x8000_0000
    ensures Low(Digits32(x / 0x100), 8) == Low(Drop(Digits32(x), 8), 8)
  {
    hide Low, Drop, Digits32;
    var w, v := Digits32(x), Digits32(x / 0x100);
    Halves8(w);
    Halves8(v);
    SameLow8(x);
    Halves8(w / 0x100);
  }

  lemma {:induction false} FoldToByte(x: int, y: int)
    requires -0x8000_0000 <= x < 0x8000_0000 && -0x8000_0000 <= y < 0x8000_0000
    requires Digits32(y) == Xor(Digits32(x), Digits32(x / 0x1_0000))
    ensures Par(Xor(Digits32(y), Digits32(y / 0x100)) % 0x100) == Par(Digits32(x))
  {
    hide Par, Xor, Low, Drop, Digits32, Pow2;
    Pow2Values();
    var v, w := Digits32(y), Digits32(x);
    var z := Xor(v, Digits32(y / 0x100));
    Halves8(z);
    ShiftedLow8(y);
    XorLow(v, Digits32(y / 0x100), 8);
    XorLow(v, Drop(v, 8), 8);
    ParFold(v, 8);
    ShiftedLow16(x);
    XorLow(w, Digits32(x / 0x1_0000), 16);
    XorLow(w, Drop(w, 16), 16);
    ParFold(w, 16);
    LowAll(w, 32);
  }

  /** The parity of the taps of polynomial j, as encoder and decoder compute it. */
  method TapParity(r: nat, j: nat) returns (p: bit)
    requires j < N
    ensures p == Out(r, j)
  {
    hide Par, And;
    AndBound(r, Poly47(j));
    p := Parity(And(r, Poly47(j)));
  }
}
