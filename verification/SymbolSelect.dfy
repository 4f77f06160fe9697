/** The ten bytes that tell the receiver which symbols to return. */
module SymbolSelect {
  import opened Bits
  import opened SymbolRange

  /** Ranges of symbols that the mask has room for. */
  predicate Fits(r: SymRange) {
    |r.start| == |r.end| == 4 && forall i :: 0 <= i < 4 ==> 2 <= r.start[i] && r.end[i] <= 77
  }

  /** Symbol x is in one of the first i ranges, or in range i below j. */
  predicate Chosen(r: SymRange, i: nat, j: int, x: int)
    requires Fits(r) && i <= 4
  {
    (exists k :: 0 <= k < i && r.start[k] <= x <= r.end[k]) || (i < 4 && r.start[i] <= x < j)
  }

  predicate Picked(r: SymRange, x: int)
    requires Fits(r)
  {
    exists k :: 0 <= k < 4 && r.start[k] <= x <= r.end[k]
  }

  /** The simple mask: 80 bits, of which symbol x sets the two from x - 2 on, and the first four are
      always set. */
  predicate Wanted(r: SymRange, p: nat)
    requires Fits(r)
  {
    p < 4 || Picked(r, p + 2) || Picked(r, p + 1)
  }

  const PAIR64: nat := 0xc000000000000000
  const PAIR32: nat := 0xc0000000

  lemma Pairs()
    ensures PAIR64 == 3 * Pow2(62) && PAIR32 == 3 * Pow2(30)
  {
    hide Pow2;
    Pow2Values();
    Pow2Add(16, 8);
    Pow2Add(24, 6);
    Pow2Add(32, 30);
  }

  lemma {:induction false} ThreeAt(i: nat)
    ensures BitAt(3, i) == if i < 2 then 1 else 0
  {
    if i >= 2 {
      ZeroAt(i - 2);
      assert BitAt(3, i) == BitAt(1, i - 1);
    }
  }

  /** `0xc000000000000000ULL >> n`, or the same with 32 bits: two adjacent ones. */
  lemma {:induction false} PairAt(top: nat, v: nat, n: nat, q: nat)
    requires v == 3 * Pow2(top) && n <= top
    ensures BitAt(Drop(v, n), q) == if q == top - n || q == top + 1 - n then 1 else 0
  {
    hide BitAt, Drop, Pow2;
    DropAt(v, n, q);
    ScaledAt(3, top, n + q);
    if n + q >= top {
      ThreeAt(n + q - top);
    }
  }

  /** Digit q of the two words after the symbols chosen so far. */
  predicate InWord64(r: SymRange, i: nat, j: int, q: nat)
    requires Fits(r) && i <= 4
  {
    (q > 2 && Chosen(r, i, j, 65 - q)) || (q > 1 && Chosen(r, i, j, 64 - q))
  }

  predicate InWord32(r: SymRange, i: nat, j: int, q: nat)
    requires Fits(r) && i <= 4
  {
    (q < 19 && Chosen(r, i, j, 81 - q)) || (q < 18 && Chosen(r, i, j, 80 - q))
  }

  ghost predicate Words(r: SymRange, i: nat, j: int, l: nat, h: nat)
    requires Fits(r) && i <= 4
  {
    forall q: nat :: (BitAt(l, q) == 1 <==> InWord64(r, i, j, q)) && (BitAt(h, q) == 1 <==> InWord32(r, i, j, q))
  }

  lemma {:induction false} ChosenNext(r: SymRange, i: nat, j: int, x: int)
    requires Fits(r) && i < 4 && r.start[i] <= j
    ensures Chosen(r, i, j + 1, x) <==> Chosen(r, i, j, x) || x == j
  {
  }

  lemma {:induction false} NoSymbols(r: SymRange)
    requires Fits(r)
    ensures Words(r, 0, r.start[0], 0, 0)
  {
    hide BitAt;
    forall q: nat ensures BitAt(0, q) == 0 {
      ZeroAt(q);
    }
  }

  /** One more symbol, in the word that has room for it. */
  lemma {:induction false} NextSymbol(r: SymRange, i: nat, j: nat, l: nat, h: nat)
    requires Fits(r) && i < 4 && r.start[i] <= j <= r.end[i] && Words(r, i, j, l, h)
    ensures j < 63 ==> Words(r, i, j + 1, Or(l, Drop(PAIR64, j - 2)), h)
    ensures j >= 63 ==> Words(r, i, j + 1, l, Or(h, Drop(PAIR32, j - 50)))
  {
    hide BitAt, Or, Drop, Chosen, Pow2;
    Pairs();
    forall q: nat
      ensures j < 63 ==> (BitAt(Or(l, Drop(PAIR64, j - 2)), q) == 1 <==> InWord64(r, i, j + 1, q))
      ensures j < 63 ==> (BitAt(h, q) == 1 <==> InWord32(r, i, j + 1, q))
      ensures j >= 63 ==> (BitAt(l, q) == 1 <==> InWord64(r, i, j + 1, q))
      ensures j >= 63 ==> (BitAt(Or(h, Drop(PAIR32, j - 50)), q) == 1 <==> InWord32(r, i, j + 1, q))
    {
      ChosenNext(r, i, j, 65 - q);
      ChosenNext(r, i, j, 64 - q);
      ChosenNext(r, i, j, 81 - q);
      ChosenNext(r, i, j, 80 - q);
      if j < 63 {
        PairAt(62, PAIR64, j - 2, q);
        OrAt(l, Drop(PAIR64, j - 2), q);
      } else {
        PairAt(30, PAIR32, j - 50, q);
        OrAt(h, Drop(PAIR32, j - 50), q);
      }
    }
  }

  lemma {:induction false} NextRange(r: SymRange, i: nat, j: int, l: nat, h: nat)
    requires Fits(r) && i < 4 && Words(r, i, j, l, h)
    requires r.start[i] <= j && (j == r.end[i] + 1 || (j == r.start[i] && j > r.end[i]))
    ensures Words(r, i + 1, if i < 3 then r.start[i + 1] else 0, l, h)
  {
    hide BitAt;
    forall x: int ensures Chosen(r, i + 1, if i < 3 then r.start[i + 1] else 0, x) <==> Chosen(r, i, j, x) {
    }
  }

  /** The two loops over ranges and symbols. */
  method SelectWords(r: SymRange) returns (l: nat, h: nat)
    requires Fits(r)
    ensures Words(r, 4, 0, l, h)
  {
    hide Words, Or, Drop, Pow2;
    l, h := 0, 0;
    NoSymbols(r);
    for i := 0 to 4
      invariant Words(r, i, if i < 4 then r.start[i] else 0, l, h)
    {
      var j := r.start[i];
      while j < r.end[i] + 1
        invariant r.start[i] <= j && (j <= r.end[i] + 1 || j == r.start[i])
        invariant Words(r, i, j, l, h)
      {
        NextSymbol(r, i, j, l, h);
        if j < 63 {
          l := Or(l, Drop(PAIR64, j - 2));
        } else {
          h := Or(h, Drop(PAIR32, j - 48 - 2));
        }
        j := j + 1;
      }
      NextRange(r, i, j, l, h);
    }
  }

  /** `swab` on a word of n 16-bit halves: the two bytes of every half change places. */
  function Swab(v: nat, n: nat): nat
    decreases n
  {
    if n == 0 then 0 else Exchanged(v % 0x10000) + 0x10000 * Swab(v / 0x10000, n - 1)
  }

  function Exchanged(w: nat): nat {
    256 * (w % 256) + w / 256
  }

  /** Digit of v that digit q of Swab(v) is. */
  function SwabDigit(q: nat): nat {
    16 * (q / 16) + (if q % 16 < 8 then q % 16 + 8 else q % 16 - 8)
  }

  /** A number cut at a digit. */
  lemma {:induction false} CutAt(low: nat, high: nat, n: nat, q: nat)
    requires low < Pow2(n)
    ensures BitAt(low + Pow2(n) * high, q) == if q < n then BitAt(low, q) else BitAt(high, q - n)
  {
    hide BitAt, Low, Drop, Pow2;
    var v := low + Pow2(n) * high;
    LowDropCat(high, low, n);
    if q < n {
      LowAt(v, n, q);
    } else {
      DropAt(v, n, q - n);
    }
  }

  lemma {:induction false} ExchangedAt(w: nat, q: nat)
    requires w < 0x10000 && q < 16
    ensures BitAt(Exchanged(w), q) == BitAt(w, SwabDigit(q))
  {
    hide BitAt;
    Pow2Values();
    CutAt(w / 256, w % 256, 8, q);
    CutAt(w % 256, w / 256, 8, SwabDigit(q));
    assert w % 256 + 256 * (w / 256) == w;
  }

  lemma {:induction false} SwabAt(v: nat, n: nat, q: nat)
    requires q < 16 * n
    ensures BitAt(Swab(v, n), q) == BitAt(v, SwabDigit(q))
    decreases n
  {
    hide BitAt, Exchanged, Pow2;
    Pow2Values();
    var w, rest := v % 0x10000, v / 0x10000;
    ExchangedFits(w);
    CutAt(Exchanged(w), Swab(rest, n - 1), 16, q);
    CutAt(w, rest, 16, SwabDigit(q));
    assert w + 0x10000 * rest == v;
    if q < 16 {
      ExchangedAt(w, q);
    } else {
      SwabAt(rest, n - 1, q - 16);
      DigitBelow(q);
    }
  }

  lemma {:induction false} DigitBelow(q: nat)
    requires q >= 16
    ensures SwabDigit(q) - 16 == SwabDigit(q - 16)
  {
  }

  lemma {:induction false} ExchangedFits(w: nat)
    requires w < 0x10000
    ensures Exchanged(w) < 0x10000
  {
  }

  /** `(v >> (8 * m)) & 0xff` */
  function ByteOf(v: nat, m: nat): (b: byte)
  {
    LowFits(Drop(v, 8 * m), 8);
    Pow2Values();
    Low(Drop(v, 8 * m), 8)
  }

  lemma {:induction false} ByteOfAt(v: nat, m: nat, k: nat)
    requires k < 8
    ensures BitAt(ByteOf(v, m), k) == BitAt(v, 8 * m + k)
  {
    hide BitAt, Low, Drop;
    LowAt(Drop(v, 8 * m), 8, k);
    DropAt(v, 8 * m, k);
  }

  function OrByte(a: byte, b: byte): byte {
    Pow2Values();
    OrFits(a, b, 8);
    Or(a, b)
  }

  /** Byte b of the ten, within its 16-bit word, changes places with its neighbour. */
  function Partner(b: nat): nat {
    if b % 2 == 0 then b + 1 else b - 1
  }

  /** Position in the simple mask of digit k of byte b. */
  function Place(b: nat, k: nat): nat
    requires k < 8
  {
    8 * Partner(b) + 7 - k
  }

  /** Every position of the simple mask has its place, and places do not collide. */
  lemma {:induction false} PlaceIsBijective(p: nat)
    requires p < 80
    ensures var b := Partner(p / 8); b < 10 && Place(b, 7 - p % 8) == p
    ensures forall b: nat, k: nat :: k < 8 && Place(b, k) == p ==> b == Partner(p / 8) && k == 7 - p % 8
  {
  }

  /** Digit of the word that digit k of byte b shows. */
  lemma {:induction false} DigitOf64(b: nat, k: nat)
    requires b < 8 && k < 8
    ensures SwabDigit(8 * (7 - b) + k) == 63 - Place(b, k)
  {
  }

  lemma {:induction false} DigitOf32(b: nat, k: nat)
    requires 6 <= b < 10 && k < 8
    ensures SwabDigit(8 * (9 - b) + k) == 79 - Place(b, k)
  {
  }

  /** What the ten bytes are before the FIC symbols are forced. */
  function SelByte(l: nat, h: nat, b: nat): byte
    requires b < 10
  {
    OrByte(if b < 8 then ByteOf(Swab(l, 4), 7 - b) else 0, if b >= 6 then ByteOf(Swab(h, 2), 9 - b) else 0)
  }

  lemma {:induction false} SelByteAt(r: SymRange, l: nat, h: nat, b: nat, k: nat)
    requires Fits(r) && Words(r, 4, 0, l, h) && b < 10 && k < 8
    ensures BitAt(SelByte(l, h, b), k) == 1 <==> Picked(r, Place(b, k) + 2) || Picked(r, Place(b, k) + 1)
  {
    hide BitAt, ByteOf, Swab, Or, Place, SwabDigit, Chosen;
    var x, y := if b < 8 then ByteOf(Swab(l, 4), 7 - b) else 0, if b >= 6 then ByteOf(Swab(h, 2), 9 - b) else 0;
    OrAt(x, y, k);
    PlaceBound(b, k);
    ChosenAll(r);
    if b < 8 {
      ByteOfAt(Swab(l, 4), 7 - b, k);
      SwabAt(l, 4, 8 * (7 - b) + k);
      DigitOf64(b, k);
    } else {
      ZeroAt(k);
    }
    if b >= 6 {
      ByteOfAt(Swab(h, 2), 9 - b, k);
      SwabAt(h, 2, 8 * (9 - b) + k);
      DigitOf32(b, k);
    } else {
      ZeroAt(k);
    }
  }

  lemma {:induction false} ChosenAll(r: SymRange)
    requires Fits(r)
    ensures forall x: int :: Chosen(r, 4, 0, x) <==> Picked(r, x)
  {
  }

  lemma {:induction false} PlaceBound(b: nat, k: nat)
    requires b < 10 && k < 8
    ensures Place(b, k) < 80 && (b < 6 <==> Place(b, k) < 48) && (b < 8 <==> Place(b, k) < 64)
  {
  }

  /** The byte that forces symbols 2, 3 and 4. */
  lemma {:induction false} ForcedAt(k: nat)
    requires k < 8
    ensures BitAt(0xf0, k) == if k >= 4 then 1 else 0
  {
    assert BitAt(0xf0, 0) == 0 && BitAt(0xf0, 1) == 0 && BitAt(0xf0, 2) == 0 && BitAt(0xf0, 3) == 0;
    assert BitAt(0xf0, 4) == 1 && BitAt(0xf0, 5) == 1 && BitAt(0xf0, 6) == 1 && BitAt(0xf0, 7) == 1;
  }

  /** The mask with the FIC symbols forced is the simple one. */
  lemma {:induction false} MaskAt(r: SymRange, l: nat, h: nat, b: nat, k: nat)
    requires Fits(r) && Words(r, 4, 0, l, h) && b < 10 && k < 8
    ensures BitAt(if b == 1 then OrByte(SelByte(l, h, b), 0xf0) else SelByte(l, h, b), k) == 1 <==>
              Wanted(r, Place(b, k))
  {
    hide BitAt, SelByte, Picked, Or;
    SelByteAt(r, l, h, b, k);
    if b == 1 {
      OrAt(SelByte(l, h, b), 0xf0, k);
      ForcedAt(k);
    }
  }

  /** `wfsymsel`: the split words, swapped and combined, are the simple mask with the bytes of every
      16-bit word exchanged. */
  method WfSymSel(sel: array<byte>, r: SymRange)
    requires Fits(r) && sel.Length == 10
    modifies sel
    ensures forall b, k :: 0 <= b < 10 && 0 <= k < 8 ==> (BitAt(sel[b], k) == 1 <==> Wanted(r, Place(b, k)))
  {
    hide BitAt, Wanted, Place, Words, Swab, ByteOf, OrByte;
    var l, h := SelectWords(r);
    var t, j := Swab(l, 4), Swab(h, 2);
    for i := 0 to 10
      invariant forall b :: 0 <= b < i ==> sel[b] == 0
    {
      sel[i] := 0;
    }
    for i := 0 to 8
      invariant forall b :: 0 <= b < 10 ==> sel[b] == if b < i then OrByte(0, ByteOf(t, 7 - b)) else 0
    {
      sel[i] := OrByte(sel[i], ByteOf(t, 7 - i));
    }
    OrZero(t);
    for i := 0 to 4
      invariant forall b :: 0 <= b < 10 ==>
        sel[b] == OrByte(if b < 8 then ByteOf(t, 7 - b) else 0, if 6 <= b < 6 + i then ByteOf(j, 9 - b) else 0)
    {
      sel[i + 6] := OrByte(sel[i + 6], ByteOf(j, 3 - i));
    }
    sel[1] := OrByte(sel[1], 0xf0);
    forall b, k | 0 <= b < 10 && 0 <= k < 8 ensures BitAt(sel[b], k) == 1 <==> Wanted(r, Place(b, k)) {
      MaskAt(r, l, h, b, k);
    }
  }

  lemma {:induction false} OrZero(t: nat)
    ensures forall a: byte :: OrByte(0, a) == a && OrByte(a, 0) == a
  {
    forall a: byte ensures OrByte(0, a) == a && OrByte(a, 0) == a {
      OrNothing(a);
    }
  }

  lemma {:induction false} OrNothing(a: nat)
    ensures Or(0, a) == a && Or(a, 0) == a
  {
    if a > 0 {
      OrNothing(a / 2);
    }
  }

  /** The ranges that `startsym` computes fit, for every sub-channel of a CIF. */
  lemma {:induction false} StartSymFits(r: SymRange, startaddr: nat, subchsz: nat)
    requires RangeOf(r, startaddr, subchsz) && startaddr + subchsz <= CUS_PER_CIF
    ensures Fits(r)
  {
    RangesFit(r, startaddr, subchsz);
  }
}
