/** Table-driven division: what an entry of a table must be, and why one table step is
    eight steps of the shift register. */
module CrcTable {
  import opened Bits
  import opened CrcRegister

  /** The n low digits of a word as a number, and back: C's conversions, digit by digit. */
  function Index(v: bv16, n: nat): nat
    decreases n
  {
    if n == 0 then 0 else 2 * Index(v >> 1, n - 1) + (if v & 1 == 1 then 1 else 0)
  }

  function Push(w: bv16, d: bit): bv16 {
    (w << 1) | (if d == 1 then 1 else 0)
  }

  function ToWord(b: nat): bv16 {
    if b == 0 then 0 else Push(ToWord(b / 2), b % 2)
  }

  predicate Fits(v: bv16, n: nat)
    decreases n
  {
    if n == 0 then v == 0 else Fits(v >> 1, n - 1)
  }

  lemma {:induction false} ToWordStep(h: nat, d: bit)
    ensures ToWord(2 * h + d) == Push(ToWord(h), d)
  {
    var b := 2 * h + d;
    if b > 0 {
      assert b / 2 == h && b % 2 == d;
    }
  }

  lemma {:induction false} ToWordOfIndex(v: bv16, n: nat)
    requires Fits(v, n)
    ensures ToWord(Index(v, n)) == v
    decreases n
  {
    if n > 0 {
      ToWordOfIndex(v >> 1, n - 1);
      ToWordStep(Index(v >> 1, n - 1), if v & 1 == 1 then 1 else 0);
      Recompose(v);
    }
  }

  lemma Recompose(v: bv16)
    ensures v == Push(v >> 1, if v & 1 == 1 then 1 else 0)
  {
    RecomposeDigit(v, v & 1);
    assert v & 1 == 0 || v & 1 == 1;
  }

  lemma RecomposeDigit(v: bv16, d: bv16)
    requires d == v & 1
    ensures v == ((v >> 1) << 1) | d
  {
  }

  lemma {:induction false} IndexBound(v: bv16, n: nat)
    ensures Index(v, n) < Pow2(n)
    decreases n
  {
    if n > 0 {
      IndexBound(v >> 1, n - 1);
    }
  }

  lemma {:induction false} ToWordNext(b: nat)
    ensures ToWord(b + 1) == ToWord(b) + 1
    decreases b
  {
    var h, d := b / 2, b % 2;
    ToWordStep(h, d);
    if d == 0 {
      ToWordStep(h, 1);
      NextEven(ToWord(h));
    } else {
      ToWordNext(h);
      ToWordStep(h + 1, 0);
      NextOdd(ToWord(h));
    }
  }

  lemma NextEven(w: bv16)
    ensures Push(w, 1) == Push(w, 0) + 1
  {
  }

  lemma NextOdd(w: bv16)
    ensures Push(w + 1, 0) == Push(w, 1) + 1
  {
  }

  /** Eight steps of the register with no message bits coming in. */
  function Eight(poly: bv16, v: bv16): bv16 {
    Two(poly, Two(poly, Two(poly, Two(poly, v))))
  }

  function Two(poly: bv16, v: bv16): bv16 {
    ZeroStep(poly, ZeroStep(poly, v))
  }

  lemma EightLinear(poly: bv16, a: bv16, b: bv16)
    ensures Eight(poly, Add(a, b)) == Add(Eight(poly, a), Eight(poly, b))
  {
    hide Add, Two;
    TwoLinear(poly, a, b);
    TwoLinear(poly, Two(poly, a), Two(poly, b));
    TwoLinear(poly, Two(poly, Two(poly, a)), Two(poly, Two(poly, b)));
    TwoLinear(poly, Two(poly, Two(poly, Two(poly, a))), Two(poly, Two(poly, Two(poly, b))));
  }

  lemma TwoLinear(poly: bv16, a: bv16, b: bv16)
    ensures Two(poly, Add(a, b)) == Add(Two(poly, a), Two(poly, b))
  {
    hide Add, ZeroStep;
    ZeroStepLinear(poly, a, b);
    ZeroStepLinear(poly, ZeroStep(poly, a), ZeroStep(poly, b));
  }

  /** A table holds, for every index, eight steps from the index in the upper byte. */
  ghost predicate IsTable(poly: bv16, tab: seq<bv16>) {
    forall i :: 0 <= i < |tab| ==> tab[i] == Eight(poly, High(ToWord(i)))
  }

  lemma {:induction false} ToWordCat(q: nat, a: bit, b: bit, c: bit)
    ensures ToWord(8 * q + 4 * a + 2 * b + c) == Shift3(ToWord(q), ToWord(4 * a + 2 * b + c))
  {
    hide ToWord, Push, Shift3;
    ToWordStep(4 * q + 2 * a + b, c);
    ToWordStep(2 * q + a, b);
    ToWordStep(q, a);
    ToWordStep(2 * a + b, c);
    ToWordStep(a, b);
    ToWordStep(0, a);
    assert 8 * q + 4 * a + 2 * b + c == 2 * (4 * q + 2 * a + b) + c && 4 * q + 2 * a + b == 2 * (2 * q + a) + b;
    ToWordZero();
    ShiftThrice(ToWord(q), a, b, c);
  }

  lemma ToWordZero()
    ensures ToWord(0) == 0
  {
  }

  function Shift3(w: bv16, low: bv16): bv16 {
    (w << 3) | low
  }

  lemma {:induction false} ShiftThrice(w: bv16, a: bit, b: bit, c: bit)
    ensures Push(Push(Push(w, a), b), c) == Shift3(w, Push(Push(Push(0, a), b), c))
  {
  }

  /** Entry k of the row that starts at index 8 * q is the sum of two known entries. */
  lemma {:induction false} RowEntry(poly: bv16, q: nat, k: nat)
    requires k < 8
    ensures Eight(poly, High(ToWord(8 * q + k))) == Add(Eight(poly, High(Shift3(ToWord(q), 0))), Eight(poly, High(ToWord(k))))
  {
    hide Eight, ToWord, Shift3, High, Add;
    var a, b, c := k / 4, k / 2 % 2, k % 2;
    assert k == 4 * a + 2 * b + c;
    ToWordCat(q, a, b, c);
    EightLinear(poly, High(Shift3(ToWord(q), 0)), High(ToWord(k)));
    SmallWord(k);
    HighSum(ToWord(q), ToWord(k));
  }

  function High(v: bv16): bv16 {
    v << 8
  }

  lemma HighSum(w: bv16, low: bv16)
    requires low & 0xfff8 == 0
    ensures High(Shift3(w, low)) == Add(High(Shift3(w, 0)), High(low))
  {
  }

  lemma {:induction false} SmallWord(k: nat)
    requires k < 8
    ensures ToWord(k) & 0xfff8 == 0
  {
    assert ToWord(0) == 0 && ToWord(1) == 1 && ToWord(2) == 2 && ToWord(3) == 3;
    assert ToWord(4) == 4 && ToWord(5) == 5 && ToWord(6) == 6 && ToWord(7) == 7;
  }

  /** Eight consecutive entries: the first one added to each entry of the very first row. */
  predicate RowFrom(t: bv16, first: seq<bv16>, row: seq<bv16>) {
    |first| == 8 && row == [Add(t, first[0]), Add(t, first[1]), Add(t, first[2]), Add(t, first[3]),
                            Add(t, first[4]), Add(t, first[5]), Add(t, first[6]), Add(t, first[7])]
  }

  lemma {:induction false} RowFromAt(t: bv16, first: seq<bv16>, row: seq<bv16>, k: nat)
    requires RowFrom(t, first, row) && k < 8
    ensures row[k] == Add(t, first[k])
  {
    hide Add;
  }

  /** Row q of a table; w is q as a word and t the entry for index 8 * q. */
  method AddRow(poly: bv16, first: seq<bv16>, tab: seq<bv16>, ghost q: nat, ghost w: bv16, ghost t: bv16,
                row: seq<bv16>) returns (tab': seq<bv16>)
    requires IsTable(poly, tab) && |tab| == 8 * q && w == ToWord(q)
    requires |first| == 8 && IsTable(poly, first)
    requires t == Eight(poly, High(Shift3(w, 0))) && |row| == 8 && RowFrom(t, first, row)
    ensures |tab'| == 8 * (q + 1) && IsTable(poly, tab')
  {
    hide Eight, ToWord, High, Add, Shift3, RowFrom;
    tab' := tab + row;
    forall i | 8 * q <= i < 8 * q + 8 ensures tab'[i] == Eight(poly, High(ToWord(i))) {
      RowEntry(poly, q, i - 8 * q);
      RowFromAt(t, first, row, i - 8 * q);
    }
  }

  lemma EmptyTable(poly: bv16)
    ensures IsTable(poly, [])
  {
  }

  lemma {:induction false} FirstEntries(poly: bv16, first: seq<bv16>)
    requires |first| == 8
    requires first[0] == Eight(poly, 0) && first[1] == Eight(poly, 0x100) && first[2] == Eight(poly, 0x200)
    requires first[3] == Eight(poly, 0x300) && first[4] == Eight(poly, 0x400) && first[5] == Eight(poly, 0x500)
    requires first[6] == Eight(poly, 0x600) && first[7] == Eight(poly, 0x700)
    ensures IsTable(poly, first)
  {
    hide Eight;
    assert ToWord(0) == 0 && ToWord(1) == 1 && ToWord(2) == 2 && ToWord(3) == 3;
    assert ToWord(4) == 4 && ToWord(5) == 5 && ToWord(6) == 6 && ToWord(7) == 7;
  }
}
